/** The proof header: how the client prints it, how the server parses it, and that the order of segments is free. */
module ProofHeader {
  import opened Basics
  import Text
  import Base64Url

  const MAX_HEADER_LEN := 8 * 1024
  const MAX_SEGMENTS := 8

  /** Names an empty object literal already answers to with `in`: Object.prototype's own properties. */
  const INHERITED: set<string> := {
    "constructor", "toString", "toLocaleString", "valueOf", "hasOwnProperty", "isPrototypeOf", "propertyIsEnumerable",
    "__proto__", "__defineGetter__", "__defineSetter__", "__lookupGetter__", "__lookupSetter__"
  }

  /** A parsed header; bh is empty when the header has none. */
  datatype Parsed = Parsed(ts: int, sig: string, bh: string)

  /** Number(s): decimal integers here, and a caller's reading of every other text. */
  function Number(other: string -> Option<int>, s: string): Option<int> {
    if Text.IsDecimal(s) then Some(Text.ParseInt(s)) else other(s)
  }

  // ---------------------------------------------------------------- parsing

  /** What one segment holds: nothing, a name with a value, or something the parser gives up on. */
  datatype Piece = Blank | Entry(k: string, v: string) | Malformed

  function ReadSegment(seg: string): Piece {
    var trimmed := Text.Trim(seg);
    if trimmed == "" then Blank
    else
      match Text.IndexOf(trimmed, '=')
      case None => Malformed
      case Some(eq) =>
        var k, v := trimmed[..eq], trimmed[eq + 1..];
        if eq == 0 || v == "" then Malformed else Entry(k, v)
  }

  /** One segment added to the parts so far; None where the parser gives up. */
  function AddSegment(seg: string, parts: map<string, string>): Option<map<string, string>> {
    AddPiece(ReadSegment(seg), parts)
  }

  function AddPiece(p: Piece, parts: map<string, string>): Option<map<string, string>> {
    match p
    case Blank => Some(parts)
    case Malformed => None
    case Entry(k, v) => if k in parts || k in INHERITED then None else Some(parts[k := v])
  }

  function AddSegments(segs: seq<string>, parts: map<string, string>): Option<map<string, string>> {
    if segs == [] then Some(parts)
    else
      match AddSegment(segs[0], parts)
      case None => None
      case Some(more) => AddSegments(segs[1..], more)
  }

  function FromParts(other: string -> Option<int>, parts: map<string, string>): Option<Parsed> {
    var ts := if "ts" in parts then Number(other, parts["ts"]) else None;
    if ts.None? || "sig" !in parts then None
    else Some(Parsed(ts.value, parts["sig"], if "bh" in parts then parts["bh"] else ""))
  }

  function Parse(other: string -> Option<int>, s: string): Option<Parsed> {
    if |s| > MAX_HEADER_LEN then None
    else
      var segments := Text.Split(s, ';');
      if |segments| > MAX_SEGMENTS then None
      else
        match AddSegments(segments, map[])
        case None => None
        case Some(parts) => FromParts(other, parts)
  }

  /** parseProofHeader: the loop over segments that fills the parts object. */
  method ParseProofHeader(other: string -> Option<int>, s: string) returns (out: Option<Parsed>)
    ensures out == Parse(other, s)
  {
    if |s| > MAX_HEADER_LEN {
      return None;
    }
    var segments := Text.Split(s, ';');
    if |segments| > MAX_SEGMENTS {
      return None;
    }
    var parts: map<string, string> := map[];
    for i := 0 to |segments|
      invariant AddSegments(segments, map[]) == AddSegments(segments[i..], parts)
    {
      AddNext(segments, i, parts);
      var trimmed := Text.Trim(segments[i]);
      if trimmed == "" {
        continue;
      }
      var eq := Text.IndexOf(trimmed, '=');
      if eq.None? || eq.value == 0 {
        return None;
      }
      var k, v := trimmed[..eq.value], trimmed[eq.value + 1..];
      if v == "" {
        return None;
      }
      if k in parts || k in INHERITED {
        return None;
      }
      parts := parts[k := v];
    }
    if "ts" !in parts {
      return None;
    }
    var ts := Number(other, parts["ts"]);
    if ts.None? || "sig" !in parts {
      return None;
    }
    out := Some(Parsed(ts.value, parts["sig"], if "bh" in parts then parts["bh"] else ""));
  }

  lemma AddNext(segments: seq<string>, i: nat, parts: map<string, string>)
    requires i < |segments|
    ensures AddSegments(segments[i..], parts) ==
      (var more := AddSegment(segments[i], parts);
       if more.None? then None else AddSegments(segments[i + 1..], more.value))
  {
    assert segments[i..][1..] == segments[i + 1..];
  }

  // ---------------------------------------------------------------- what parses

  function AddPieces(pieces: seq<Piece>, parts: map<string, string>): Option<map<string, string>> {
    if pieces == [] then Some(parts)
    else
      match AddPiece(pieces[0], parts)
      case None => None
      case Some(more) => AddPieces(pieces[1..], more)
  }

  function Pieces(segs: seq<string>): (pieces: seq<Piece>)
    ensures |pieces| == |segs| && forall i :: 0 <= i < |segs| ==> pieces[i] == ReadSegment(segs[i])
  {
    seq(|segs|, i requires 0 <= i < |segs| => ReadSegment(segs[i]))
  }

  lemma {:induction false} SegmentsArePieces(segs: seq<string>, parts: map<string, string>)
    ensures AddSegments(segs, parts) == AddPieces(Pieces(segs), parts)
  {
    if segs != [] {
      var more := AddSegment(segs[0], parts);
      assert Pieces(segs)[1..] == Pieces(segs[1..]);
      if more.Some? {
        SegmentsArePieces(segs[1..], more.value);
      }
    }
  }

  /** The piece is not malformed, and its name is neither inherited nor taken. */
  predicate Fits(p: Piece, taken: set<string>) {
    match p
    case Blank => true
    case Malformed => false
    case Entry(k, _) => k !in INHERITED && k !in taken
  }

  predicate SameName(p: Piece, q: Piece) {
    p.Entry? && q.Entry? && p.k == q.k
  }

  /** No two pieces name the same member. */
  ghost predicate NamedOnce(pieces: seq<Piece>) {
    forall i, j :: 0 <= i < j < |pieces| ==> !SameName(pieces[i], pieces[j])
  }

  ghost predicate AllFit(pieces: seq<Piece>, taken: set<string>) {
    forall p <- pieces :: Fits(p, taken)
  }

  lemma NamedOnceCons(p: Piece, rest: seq<Piece>)
    ensures NamedOnce([p] + rest) <==> NamedOnce(rest) && forall q <- rest :: !SameName(p, q)
  {
    var pieces := [p] + rest;
    assert forall i | 0 <= i < |rest| :: pieces[i + 1] == rest[i];
    if NamedOnce(pieces) {
      forall i, j | 0 <= i < j < |rest|
        ensures !SameName(rest[i], rest[j])
      {
        assert pieces[i + 1] == rest[i] && pieces[j + 1] == rest[j];
      }
      forall q <- rest
        ensures !SameName(p, q)
      {
        var j :| 0 <= j < |rest| && rest[j] == q;
        assert pieces[0] == p && pieces[j + 1] == q;
      }
    }
  }

  lemma AllFitCons(p: Piece, rest: seq<Piece>, taken: set<string>)
    requires Fits(p, taken)
    ensures var more := if p.Entry? then taken + {p.k} else taken;
      AllFit(rest, more) <==> AllFit([p] + rest, taken) && forall q <- rest :: !SameName(p, q)
  {
    assert forall q :: q in [p] + rest <==> q == p || q in rest;
  }

  /** Pieces are accepted if and only if each fits and no name is repeated. */
  lemma {:induction false} AcceptedPieces(pieces: seq<Piece>, parts: map<string, string>)
    ensures AddPieces(pieces, parts).Some? <==> AllFit(pieces, parts.Keys) && NamedOnce(pieces)
  {
    if pieces != [] {
      var p, rest := pieces[0], pieces[1..];
      assert pieces == [p] + rest;
      var more := AddPiece(p, parts);
      if more.Some? {
        assert more.value.Keys == if p.Entry? then parts.Keys + {p.k} else parts.Keys;
        AcceptedPieces(rest, more.value);
        NamedOnceCons(p, rest);
        AllFitCons(p, rest, parts.Keys);
      } else {
        assert p in pieces && !Fits(p, parts.Keys);
      }
    }
  }

  /** What is accepted holds what was there and exactly what the pieces spell. */
  lemma {:induction false} PiecesSpell(pieces: seq<Piece>, parts: map<string, string>, k: string, v: string)
    requires AddPieces(pieces, parts).Some?
    ensures var more := AddPieces(pieces, parts).value;
      (k in more && more[k] == v) <==> (k in parts && parts[k] == v) || Entry(k, v) in pieces
  {
    if pieces != [] {
      assert forall q :: q in pieces <==> q == pieces[0] || q in pieces[1..];
      PiecesSpell(pieces[1..], AddPiece(pieces[0], parts).value, k, v);
      AcceptedPieces(pieces, parts);
      if Entry(k, v) in pieces[1..] {
        assert Fits(Entry(k, v), AddPiece(pieces[0], parts).value.Keys);
      }
    }
  }

  /** What three members read as: a timestamp, a signature, and a hash or none. */
  ghost predicate Reads(other: string -> Option<int>, pieces: seq<Piece>, p: Parsed) {
    && (exists v :: Entry("ts", v) in pieces && Number(other, v) == Some(p.ts))
    && Entry("sig", p.sig) in pieces
    && (Entry("bh", p.bh) in pieces || (p.bh == "" && forall v :: Entry("bh", v) !in pieces))
  }

  lemma PartsRead(other: string -> Option<int>, pieces: seq<Piece>, parts: map<string, string>, p: Parsed)
    requires forall k, v :: (k in parts && parts[k] == v) <==> Entry(k, v) in pieces
    ensures FromParts(other, parts) == Some(p) <==> Reads(other, pieces, p)
  {
    assert forall k :: k in parts ==> Entry(k, parts[k]) in pieces;
  }

  /**
   * A header parses if and only if it is within its caps, no segment is malformed or names an
   * inherited or a repeated member, and the result is what its segments spell.
   */
  lemma ParsesExactly(other: string -> Option<int>, s: string, p: Parsed)
    ensures var pieces := Pieces(Text.Split(s, ';'));
      Parse(other, s) == Some(p) <==>
        && |s| <= 8192 && |pieces| <= 8
        && AllFit(pieces, {}) && NamedOnce(pieces) && Reads(other, pieces, p)
  {
    var segs := Text.Split(s, ';');
    var pieces := Pieces(segs);
    SegmentsArePieces(segs, map[]);
    AcceptedPieces(pieces, map[]);
    var parts := AddPieces(pieces, map[]);
    if parts.Some? {
      forall k, v
        ensures (k in parts.value && parts.value[k] == v) <==> Entry(k, v) in pieces
      {
        PiecesSpell(pieces, map[], k, v);
      }
      PartsRead(other, pieces, parts.value, p);
    }
  }

  /** A segment around its separator: white space is free, and name and value must both be there. */
  lemma SegmentReads(k: string, v: string)
    requires '=' !in k && Text.Trim(k + "=" + v) == k + "=" + v
    ensures ReadSegment(k + "=" + v) == if k == "" || v == "" then Malformed else Entry(k, v)
  {
    var seg := k + "=" + v;
    Text.IndexOfField(k, '=', v);
    assert seg == k + ['='] + v && seg[..|k|] == k && seg[|k| + 1..] == v;
  }

  /** A segment without a separator is blank or malformed, whatever surrounds it. */
  lemma BareSegment(seg: string)
    requires '=' !in Text.Trim(seg)
    ensures ReadSegment(seg) == if Text.Trim(seg) == "" then Blank else Malformed
  {}

  // ---------------------------------------------------------------- segment order

  /** Two neighbouring segments commute. */
  lemma SwapNeighbours(a: string, b: string, rest: seq<string>, parts: map<string, string>)
    ensures AddSegments([a, b] + rest, parts) == AddSegments([b, a] + rest, parts)
  {
    Unfold2(a, b, rest, parts);
    Unfold2(b, a, rest, parts);
    PiecesCommute(ReadSegment(a), ReadSegment(b), parts);
  }

  function AddTwo(p: Piece, q: Piece, parts: map<string, string>): Option<map<string, string>> {
    var more := AddPiece(p, parts);
    if more.None? then None else AddPiece(q, more.value)
  }

  lemma PiecesCommute(p: Piece, q: Piece, parts: map<string, string>)
    ensures AddTwo(p, q, parts) == AddTwo(q, p, parts)
  {
    if p.Entry? && q.Entry? && p.k != q.k {
      assert parts[p.k := p.v][q.k := q.v] == parts[q.k := q.v][p.k := p.v];
    }
  }

  lemma Unfold2(a: string, b: string, rest: seq<string>, parts: map<string, string>)
    ensures AddSegments([a, b] + rest, parts) ==
      (var both := AddTwo(ReadSegment(a), ReadSegment(b), parts);
       if both.None? then None else AddSegments(rest, both.value))
  {}

  lemma Unfold1(a: string, rest: seq<string>, parts: map<string, string>)
    ensures AddSegments([a] + rest, parts) ==
      (var pa := AddSegment(a, parts); if pa.None? then None else AddSegments(rest, pa.value))
  {}

  /** What comes after a common first segment may be exchanged for what adds the same. */
  lemma SameFirst(b: string, x: seq<string>, y: seq<string>, parts: map<string, string>)
    requires var p := AddSegment(b, parts); p.Some? ==> AddSegments(x, p.value) == AddSegments(y, p.value)
    ensures AddSegments([b] + x, parts) == AddSegments([b] + y, parts)
  {}

  /** Any segment may be moved to the front. */
  lemma {:induction false} MoveToFront(before: seq<string>, a: string, after: seq<string>, parts: map<string, string>)
    ensures AddSegments(before + [a] + after, parts) == AddSegments([a] + (before + after), parts)
  {
    if before == [] {
      assert before + [a] + after == [a] + (before + after);
    } else {
      var b, tail, rest := before[0], before[1..], before[1..] + after;
      var p := AddSegment(b, parts);
      if p.Some? {
        MoveToFront(tail, a, after, p.value);
      }
      SameFirst(b, tail + [a] + after, [a] + rest, parts);
      SwapNeighbours(b, a, rest, parts);
      Regroup(b, tail, a, after);
      assert before == [b] + tail;
    }
  }

  lemma Regroup(b: string, tail: seq<string>, a: string, after: seq<string>)
    ensures [b] + tail + [a] + after == [b] + (tail + [a] + after)
    ensures [b] + ([a] + (tail + after)) == [b, a] + (tail + after)
    ensures [a, b] + (tail + after) == [a] + ([b] + tail + after)
  {}

  /** The first element of one sequence, taken out of a permutation of it. */
  lemma TakeOut(p: seq<string>, q: seq<string>) returns (i: nat)
    requires p != [] && multiset(p) == multiset(q)
    ensures i < |q| && q[i] == p[0] && q == q[..i] + [p[0]] + q[i + 1..]
    ensures multiset(p[1..]) == multiset(q[..i] + q[i + 1..])
  {
    assert p[0] in multiset(q);
    i :| 0 <= i < |q| && q[i] == p[0];
    assert p == [p[0]] + p[1..];
    assert q == q[..i] + [p[0]] + q[i + 1..];
    assert multiset(p) == multiset{p[0]} + multiset(p[1..]);
    assert multiset(q) == multiset(q[..i]) + multiset{p[0]} + multiset(q[i + 1..]);
    assert multiset(q[..i] + q[i + 1..]) == multiset(q[..i]) + multiset(q[i + 1..]);
    assert multiset(p[1..]) == multiset(p) - multiset{p[0]};
  }

  lemma {:induction false} AnyOrder(p: seq<string>, q: seq<string>, parts: map<string, string>)
    requires multiset(p) == multiset(q)
    ensures AddSegments(p, parts) == AddSegments(q, parts)
  {
    if p == [] {
      assert |multiset(q)| == 0;
    } else {
      var i := TakeOut(p, q);
      var a, tail, others := p[0], p[1..], q[..i] + q[i + 1..];
      assert p == [a] + tail;
      MoveToFront(q[..i], a, q[i + 1..], parts);
      Unfold1(a, tail, parts);
      Unfold1(a, others, parts);
      if AddSegment(a, parts).Some? {
        AnyOrder(tail, others, AddSegment(a, parts).value);
      }
    }
  }

  lemma {:induction false} SplitJoin(p: seq<string>)
    requires |p| > 0 && forall seg <- p :: ';' !in seg
    ensures Text.Split(Text.Join(p, ";"), ';') == p
  {
    if |p| == 1 {
      Text.SplitSingle(p[0], ';');
    } else {
      assert p[0] in p;
      SplitJoin(p[1..]);
      Text.SplitField(p[0], Text.Join(p[1..], ";"), ';');
      assert [p[0]] + p[1..] == p;
    }
  }

  function TotalLength(p: seq<string>): nat {
    if p == [] then 0 else |p[0]| + TotalLength(p[1..])
  }

  lemma {:induction false} JoinLength(p: seq<string>)
    requires |p| > 0
    ensures |Text.Join(p, ";")| == TotalLength(p) + |p| - 1
  {
    if |p| > 1 {
      JoinLength(p[1..]);
    } else {
      assert p[1..] == [];
    }
  }

  lemma {:induction false} TotalLengthConcat(p: seq<string>, q: seq<string>)
    ensures TotalLength(p + q) == TotalLength(p) + TotalLength(q)
  {
    if p == [] {
      assert p + q == q;
    } else {
      assert (p + q)[1..] == p[1..] + q;
      TotalLengthConcat(p[1..], q);
    }
  }

  lemma {:induction false} SameTotalLength(p: seq<string>, q: seq<string>)
    requires multiset(p) == multiset(q)
    ensures TotalLength(p) == TotalLength(q) && |p| == |q|
  {
    assert |p| == |multiset(p)| == |multiset(q)| == |q|;
    if p != [] {
      var i := TakeOut(p, q);
      SameTotalLength(p[1..], q[..i] + q[i + 1..]);
      TotalLengthConcat(q[..i], q[i + 1..]);
      TotalLengthConcat(q[..i] + [p[0]], q[i + 1..]);
      TotalLengthConcat(q[..i], [p[0]]);
      assert [p[0]][1..] == [];
    }
  }

  /** A header parses the same whatever order its segments come in. */
  lemma SegmentOrderFree(other: string -> Option<int>, p: seq<string>, q: seq<string>)
    requires |p| > 0 && multiset(p) == multiset(q) && forall seg <- p :: ';' !in seg
    ensures Parse(other, Text.Join(p, ";")) == Parse(other, Text.Join(q, ";"))
  {
    SameTotalLength(p, q);
    forall seg <- q
      ensures ';' !in seg
    {
      assert seg in multiset(p);
    }
    SplitJoin(p);
    SplitJoin(q);
    JoinLength(p);
    JoinLength(q);
    AnyOrder(p, q, map[]);
  }

  // ---------------------------------------------------------------- printing

  function Segment(k: string, v: string): string {
    k + "=" + v
  }

  /** The header value wrapFetch sets; an empty hash stands for a body that is not signed. */
  function Print(ts: int, sig: string, bh: string): string {
    var start := Segment("ts", Text.PrintInt(ts)) + ";" + Segment("sig", sig);
    if bh == "" then start else start + ";" + Segment("bh", bh)
  }

  /** A value that neither ends its segment nor is trimmed. */
  predicate Plain(s: string) {
    Text.NoSpace(s) && ';' !in s
  }

  lemma UrlSafeIsPlain(s: string)
    requires forall c <- s :: Base64Url.UrlSafe(c)
    ensures Plain(s)
  {}

  /** A printed segment adds its one entry. */
  lemma SegmentAdds(k: string, v: string, parts: map<string, string>)
    requires k != "" && v != "" && '=' !in k && Text.NoSpace(k) && Text.NoSpace(v) && k !in parts && k !in INHERITED
    ensures AddSegment(Segment(k, v), parts) == Some(parts[k := v])
  {
    var seg := Segment(k, v);
    assert forall c <- seg :: c in k || c == '=' || c in v;
    Text.TrimNoSpace(seg);
    Text.IndexOfField(k, '=', v);
    assert seg == k + ['='] + v;
    assert seg[..|k|] == k && seg[|k| + 1..] == v;
  }

  lemma PrintedSegments(ts: int, sig: string, bh: string)
    requires Plain(sig) && Plain(bh)
    ensures Text.Split(Print(ts, sig, bh), ';')
         == [Segment("ts", Text.PrintInt(ts)), Segment("sig", sig)] + if bh == "" then [] else [Segment("bh", bh)]
  {
    var a, b, d := Segment("ts", Text.PrintInt(ts)), Segment("sig", sig), Segment("bh", bh);
    NumbersArePlain(ts);
    if bh == "" {
      assert Print(ts, sig, bh) == a + ";" + b;
      Text.SplitField(a, b, ';');
      Text.SplitSingle(b, ';');
    } else {
      assert Print(ts, sig, bh) == a + ";" + (b + ";" + d);
      Text.SplitField(a, b + ";" + d, ';');
      Text.SplitField(b, d, ';');
      Text.SplitSingle(d, ';');
    }
  }

  lemma TwoThenRest(a: string, b: string, rest: seq<string>, t1: map<string, string>, t2: map<string, string>)
    requires AddSegment(a, map[]) == Some(t1) && AddSegment(b, t1) == Some(t2)
    ensures AddSegments([a, b] + rest, map[]) == AddSegments(rest, t2)
  {}

  lemma FieldNames()
    ensures forall k | k in ["ts", "sig", "bh"] :: '=' !in k && Text.NoSpace(k) && k !in INHERITED
  {}

  lemma NumbersArePlain(ts: int)
    ensures Plain(Text.PrintInt(ts)) && Text.PrintInt(ts) != ""
  {}

  /** The entry of one printed segment, for the names the client uses. */
  lemma FieldAdds(k: string, v: string, parts: map<string, string>)
    requires k in ["ts", "sig", "bh"] && v != "" && Text.NoSpace(v) && k !in parts
    ensures AddSegment(Segment(k, v), parts) == Some(parts[k := v])
  {
    FieldNames();
    SegmentAdds(k, v, parts);
  }

  function PrintedMap(ts: int, sig: string, bh: string): map<string, string> {
    var t := map["ts" := Text.PrintInt(ts)]["sig" := sig];
    if bh == "" then t else t["bh" := bh]
  }

  lemma PrintedParts(ts: int, sig: string, bh: string)
    requires Plain(sig) && Plain(bh) && sig != ""
    ensures AddSegments(Text.Split(Print(ts, sig, bh), ';'), map[]) == Some(PrintedMap(ts, sig, bh))
  {
    var number := Text.PrintInt(ts);
    var t1 := map["ts" := number];
    var t2 := t1["sig" := sig];
    NumbersArePlain(ts);
    FieldAdds("ts", number, map[]);
    FieldAdds("sig", sig, t1);
    TwoThenRest(Segment("ts", number), Segment("sig", sig), [], t1, t2);
    TwoThenRest(Segment("ts", number), Segment("sig", sig), [Segment("bh", bh)], t1, t2);
    if bh != "" {
      FieldAdds("bh", bh, t2);
      Unfold1(Segment("bh", bh), [], t2);
      assert [Segment("bh", bh)] + [] == [Segment("bh", bh)];
    }
    PrintedSegments(ts, sig, bh);
  }

  lemma PrintedMapRead(other: string -> Option<int>, ts: int, sig: string, bh: string)
    ensures FromParts(other, PrintedMap(ts, sig, bh)) == Some(Parsed(ts, sig, bh))
  {
    Text.ParsePrintInt(ts);
  }

  /** What the client prints is what the server reads, if it fits the length cap. */
  lemma ParsePrint(other: string -> Option<int>, ts: int, sig: string, bh: string)
    requires Plain(sig) && Plain(bh) && sig != "" && |Print(ts, sig, bh)| <= MAX_HEADER_LEN
    ensures Parse(other, Print(ts, sig, bh)) == Some(Parsed(ts, sig, bh))
  {
    PrintedSegments(ts, sig, bh);
    PrintedParts(ts, sig, bh);
    PrintedMapRead(other, ts, sig, bh);
  }
}
