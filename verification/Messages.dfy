/** The texts that keys sign, and why no text can be read as two different statements. */
module Messages {
  import Text
  import Handlers

  /** What a signature by the polyfill key says. The method is already in upper case. */
  datatype Statement =
    | Registration(jti: string)
    | Refresh(jti: string, timestamp: int)
    | Request(sessionId: string, method_: string, path: string, ts: int, bodyHash: string)

  function Message(s: Statement): string {
    match s
    case Registration(jti) => jti
    case Refresh(jti, timestamp) => Handlers.RefreshMessage(jti, timestamp)
    case Request(id, m, path, ts, bh) => id + "." + m + "." + path + "." + Text.PrintInt(ts) + "." + bh
  }

  /** The proof message of a guard that does not sign the body. */
  function BodilessMessage(id: string, m: string, path: string, ts: int): string {
    id + "." + m + "." + path + "." + Text.PrintInt(ts)
  }

  predicate DotFree(s: string) {
    '.' !in s
  }

  /** No dot is followed by a slash. */
  predicate NoBorder(id: string) {
    forall i :: 0 <= i < |id| - 1 && id[i] == '.' ==> id[i + 1] != '/'
  }

  predicate IsRooted(path: string) {
    path != "" && path[0] == '/'
  }

  /**
   * Two ways to name a request that keep its text unambiguous: no dots in session id and method,
   * whatever the path; or, for the paths that a server receives, no slash behind a dot in the id.
   */
  datatype Naming = NoDots | Rooted

  predicate WellNamed(n: Naming, id: string, m: string, path: string) {
    match n
    case NoDots => DotFree(id) && DotFree(m)
    case Rooted => NoBorder(id) && DotFree(m) && '/' !in m && IsRooted(path)
  }

  /** Nonces and hashes hold no dot. */
  predicate WellFormed(n: Naming, s: Statement) {
    match s
    case Registration(jti) => DotFree(jti)
    case Refresh(jti, _) => DotFree(jti)
    case Request(id, m, path, _, bh) => WellNamed(n, id, m, path) && DotFree(bh)
  }

  // ---------------------------------------------------------------- without dots

  lemma RequestParts(s: Statement)
    requires s.Request? && WellFormed(NoDots, s)
    ensures Text.Split(Message(s), '.')
         == [s.sessionId, s.method_] + Text.Split(s.path, '.') + [Text.PrintInt(s.ts), s.bodyHash]
  {
    var ts := Text.PrintInt(s.ts);
    var tail := ts + "." + s.bodyHash;
    FiveFields(s.sessionId, s.method_, s.path, ts, s.bodyHash);
    Text.SplitField(s.sessionId, s.method_ + "." + (s.path + "." + tail), '.');
    Text.SplitField(s.method_, s.path + "." + tail, '.');
    Text.SplitConcat(s.path, tail, '.');
    Text.SplitField(ts, s.bodyHash, '.');
    Text.SplitSingle(s.bodyHash, '.');
  }

  lemma FiveFields(a: string, b: string, c: string, d: string, e: string)
    ensures a + "." + b + "." + c + "." + d + "." + e == a + "." + (b + "." + (c + "." + (d + "." + e)))
  {}

  lemma OtherParts(n: Naming, s: Statement)
    requires !s.Request? && WellFormed(n, s)
    ensures Text.Split(Message(s), '.') == if s.Registration? then [s.jti] else [s.jti, Text.PrintInt(s.timestamp)]
  {
    Text.SplitSingle(s.jti, '.');
    if s.Refresh? {
      Text.SplitField(s.jti, Text.PrintInt(s.timestamp), '.');
      Text.SplitSingle(Text.PrintInt(s.timestamp), '.');
    }
  }

  lemma RequestInjective(s: Statement, t: Statement)
    requires s.Request? && t.Request? && WellFormed(NoDots, s) && WellFormed(NoDots, t) && Message(s) == Message(t)
    ensures s == t
  {
    RequestParts(s);
    RequestParts(t);
    var p, q := Text.Split(s.path, '.'), Text.Split(t.path, '.');
    var u := [s.sessionId, s.method_] + p + [Text.PrintInt(s.ts), s.bodyHash];
    var v := [t.sessionId, t.method_] + q + [Text.PrintInt(t.ts), t.bodyHash];
    assert u[0] == v[0] && u[1] == v[1] && u[|u| - 1] == v[|v| - 1] && u[|u| - 2] == v[|v| - 2];
    assert u[2..|u| - 2] == p && v[2..|v| - 2] == q;
    Text.SplitInjective(s.path, t.path, '.');
    Text.PrintIntInjective(s.ts, t.ts);
  }

  // ---------------------------------------------------------------- with dots

  /** A request as it reaches a server: a method is one word, a path starts with '/'; an id may be anything. */
  predicate Receivable(s: Statement) {
    s.Request? && DotFree(s.method_) && '/' !in s.method_ && IsRooted(s.path) && DotFree(s.bodyHash)
  }

  function Head(s: Statement): string
    requires s.Request?
  {
    s.sessionId + "." + s.method_
  }

  function Tail(s: Statement): string
    requires s.Request?
  {
    s.path + "." + Text.PrintInt(s.ts) + "." + s.bodyHash
  }

  lemma HeadTail(s: Statement)
    requires s.Request?
    ensures Message(s) == Head(s) + "." + Tail(s)
  {
    assert Message(s) == Head(s) + "." + (s.path + "." + Text.PrintInt(s.ts) + "." + s.bodyHash);
  }

  /** A text cannot have its last dot in two places. */
  lemma LastDotPlace(a: string, b: string, c: string, d: string)
    requires |a| < |c| && DotFree(b)
    ensures a + "." + b != c + "." + d
  {
    var u, v := a + "." + b, c + "." + d;
    if |u| == |v| {
      assert u[|c|] == b[|c| - |a| - 1] && v[|c|] == '.';
    }
  }

  /** The last dot of a text. */
  lemma LastDot(a: string, b: string, c: string, d: string)
    requires a + "." + b == c + "." + d && DotFree(b) && DotFree(d)
    ensures a == c && b == d
  {
    if |a| < |c| {
      LastDotPlace(a, b, c, d);
    } else if |c| < |a| {
      LastDotPlace(c, d, a, b);
    } else {
      var u, v := a + "." + b, c + "." + d;
      assert u[..|a|] == a && v[..|c|] == c && u[|a| + 1..] == b && v[|c| + 1..] == d;
    }
  }

  lemma LastTwo(a: string, s: Statement, c: string, t: Statement)
    requires s.Request? && t.Request? && DotFree(s.bodyHash) && DotFree(t.bodyHash)
    requires a + "." + Text.PrintInt(s.ts) + "." + s.bodyHash == c + "." + Text.PrintInt(t.ts) + "." + t.bodyHash
    ensures a == c && s.ts == t.ts && s.bodyHash == t.bodyHash
  {
    LastDot(a + "." + Text.PrintInt(s.ts), s.bodyHash, c + "." + Text.PrintInt(t.ts), t.bodyHash);
    LastDot(a, Text.PrintInt(s.ts), c, Text.PrintInt(t.ts));
    Text.PrintIntInjective(s.ts, t.ts);
  }

  /** The second id continues the first by the first method and a path, on which the first path goes on. */
  ghost predicate Continues(s: Statement, t: Statement)
    requires s.Request? && t.Request?
  {
    && s.ts == t.ts && s.bodyHash == t.bodyHash
    && exists p :: IsRooted(p) && t.sessionId == Head(s) + "." + p && s.path == p + "." + t.method_ + "." + t.path
  }

  lemma SameHead(s: Statement, t: Statement)
    requires Receivable(s) && Receivable(t) && Message(s) == Message(t) && |Head(s)| == |Head(t)|
    ensures s == t
  {
    HeadTail(s);
    HeadTail(t);
    assert Message(s)[..|Head(s)|] == Head(s) && Message(t)[..|Head(t)|] == Head(t);
    assert Message(s)[|Head(s)| + 1..] == Tail(s) && Message(t)[|Head(t)| + 1..] == Tail(t);
    LastDot(s.sessionId, s.method_, t.sessionId, t.method_);
    LastTwo(s.path, s, t.path, t);
  }

  /** Where the shorter head ends, the longer id goes on with a dot and a slash. */
  lemma BorderAt(head: string, tail: string, id: string, m: string, rest: string)
    requires head + "." + tail == id + "." + m + "." + rest && |head| < |id| + 1 + |m|
    requires IsRooted(tail) && '/' !in m
    ensures |head| + 1 < |id| && id[..|head|] == head && id[|head|] == '.' && id[|head| + 1] == '/'
  {
    var u, v, a, n := head + "." + tail, id + "." + m + "." + rest, |head|, |id| + 1 + |m|;
    assert forall i | |id| <= i <= n :: v[i] == '.' || v[i] in m;
    assert u[a] == '.' && u[a + 1] == tail[0] == '/';
    assert u[..a] == head && v[..|id|] == id;
  }

  lemma BorderInId(s: Statement, t: Statement) returns (p: string)
    requires Receivable(s) && Receivable(t) && Message(s) == Message(t) && |Head(s)| < |Head(t)|
    ensures IsRooted(p) && t.sessionId == Head(s) + "." + p
  {
    HeadTail(s);
    HeadTail(t);
    BorderAt(Head(s), Tail(s), t.sessionId, t.method_, Tail(t));
    p := t.sessionId[|Head(s)| + 1..];
    assert t.sessionId == t.sessionId[..|Head(s)|] + [t.sessionId[|Head(s)|]] + p;
  }

  lemma ShortHead(s: Statement, t: Statement)
    requires Receivable(s) && Receivable(t) && Message(s) == Message(t) && |Head(s)| < |Head(t)|
    ensures Continues(s, t)
  {
    var p := BorderInId(s, t);
    var joined := p + "." + t.method_ + "." + t.path;
    ContinuedText(s, t, p);
    var rest := joined + "." + Text.PrintInt(t.ts) + "." + t.bodyHash;
    HeadTail(s);
    Text.SameStart(Head(s) + ".", Tail(s), rest);
    LastTwo(s.path, s, joined, t);
  }

  /** What follows the id in a request's text. */
  function AfterId(s: Statement): string
    requires s.Request?
  {
    "." + s.method_ + "." + s.path + "." + Text.PrintInt(s.ts) + "." + s.bodyHash
  }

  lemma IdFirst(s: Statement)
    requires s.Request?
    ensures Message(s) == s.sessionId + AfterId(s)
  {}

  lemma JoinedFirst(t: Statement, p: string)
    requires t.Request?
    ensures p + "." + t.method_ + "." + t.path + "." + Text.PrintInt(t.ts) + "." + t.bodyHash == p + AfterId(t)
  {}

  lemma Reassociate(a: string, p: string, rest: string)
    ensures a + "." + p + rest == a + "." + (p + rest)
  {}

  /** The text of a request whose id continues a head. */
  lemma ContinuedText(s: Statement, t: Statement, p: string)
    requires s.Request? && t.Request? && t.sessionId == Head(s) + "." + p
    ensures var joined := p + "." + t.method_ + "." + t.path;
      Message(t) == Head(s) + "." + (joined + "." + Text.PrintInt(t.ts) + "." + t.bodyHash)
  {
    IdFirst(t);
    JoinedFirst(t, p);
    Reassociate(Head(s), p, AfterId(t));
  }

  lemma ContinuedCollides(s: Statement, t: Statement)
    requires s.Request? && t.Request? && Continues(s, t)
    ensures Message(s) == Message(t)
  {
    var p :| IsRooted(p) && t.sessionId == Head(s) + "." + p && s.path == p + "." + t.method_ + "." + t.path;
    ContinuedText(s, t, p);
    HeadTail(s);
  }

  /**
   * Two requests that reach a server share a text if and only if they are the same, or the id of
   * one continues the other's by "." and its method and "." and a path.
   */
  lemma TextsExactly(s: Statement, t: Statement)
    requires Receivable(s) && Receivable(t)
    ensures Message(s) == Message(t) <==> s == t || Continues(s, t) || Continues(t, s)
  {
    if Continues(s, t) {
      ContinuedCollides(s, t);
    } else if Continues(t, s) {
      ContinuedCollides(t, s);
    } else if Message(s) == Message(t) {
      if |Head(s)| < |Head(t)| {
        ShortHead(s, t);
      } else if |Head(t)| < |Head(s)| {
        ShortHead(t, s);
      } else {
        SameHead(s, t);
      }
    }
  }

  /** An id with no slash behind a dot continues no other. */
  lemma NothingContinued(s: Statement, t: Statement)
    requires s.Request? && t.Request? && NoBorder(t.sessionId)
    ensures !Continues(s, t)
  {
    var a := |Head(s)|;
    forall p | p != "" && t.sessionId == Head(s) + "." + p
      ensures !IsRooted(p)
    {
      assert t.sessionId[a] == '.' && t.sessionId[a + 1] == p[0];
    }
  }

  /** Such a pair exists: an id that holds a method and a path. */
  lemma IdsThatHoldPaths(id: string, m: string, p: string, n: string, q: string, ts: int, bh: string)
    requires IsRooted(p) && IsRooted(q)
    ensures Message(Request(id + "." + m + "." + p, n, q, ts, bh))
         == Message(Request(id, m, p + "." + n + "." + q, ts, bh))
  {
    ContinuedCollides(Request(id, m, p + "." + n + "." + q, ts, bh), Request(id + "." + m + "." + p, n, q, ts, bh));
  }

  // ---------------------------------------------------------------- all statements

  /** A text in three or more parts has at least two dots, whatever the parts hold. */
  lemma ManyDots(a: string, b: string, c: string)
    ensures |Text.Split(a + "." + b + "." + c, '.')| >= 3
  {
    Text.SplitConcat(a + "." + b, c, '.');
    Text.SplitConcat(a, b, '.');
  }

  /**
   * One text, one statement: a registration has no dot, a refresh one, a request at least four, and
   * each text determines every field, whatever dots the path holds, and the id where paths are rooted.
   */
  lemma Unambiguous(n: Naming, s: Statement, t: Statement)
    requires WellFormed(n, s) && WellFormed(n, t) && Message(s) == Message(t)
    ensures s == t
  {
    if s.Request? && t.Request? {
      if n.NoDots? {
        RequestInjective(s, t);
      } else {
        NothingContinued(s, t);
        NothingContinued(t, s);
        TextsExactly(s, t);
      }
    } else {
      PartsOf(n, s);
      PartsOf(n, t);
      if s.Refresh? && t.Refresh? {
        assert [s.jti, Text.PrintInt(s.timestamp)][1] == [t.jti, Text.PrintInt(t.timestamp)][1];
        Text.PrintIntInjective(s.timestamp, t.timestamp);
      }
    }
  }

  lemma PartsOf(n: Naming, s: Statement)
    requires WellFormed(n, s)
    ensures var parts := Text.Split(Message(s), '.');
      match s
      case Registration(jti) => parts == [jti]
      case Refresh(jti, timestamp) => parts == [jti, Text.PrintInt(timestamp)]
      case Request(_, _, _, _, _) => |parts| >= 3
  {
    if s.Request? {
      ManyDots(s.sessionId + "." + s.method_ + "." + s.path, Text.PrintInt(s.ts), s.bodyHash);
    } else {
      OtherParts(n, s);
    }
  }

  // ---------------------------------------------------------------- body-less proofs

  lemma BodilessParts(id: string, m: string, path: string, ts: int)
    requires DotFree(id) && DotFree(m)
    ensures Text.Split(BodilessMessage(id, m, path, ts), '.') == [id, m] + Text.Split(path, '.') + [Text.PrintInt(ts)]
  {
    var tail := Text.PrintInt(ts);
    assert BodilessMessage(id, m, path, ts) == id + "." + (m + "." + (path + "." + tail));
    Text.SplitField(id, m + "." + (path + "." + tail), '.');
    Text.SplitField(m, path + "." + tail, '.');
    Text.SplitConcat(path, tail, '.');
    Text.SplitSingle(tail, '.');
  }

  /** A body-less proof is neither a registration nor a refresh, whatever its names hold. */
  lemma BodilessApart(id: string, m: string, path: string, ts: int, n: Naming, s: Statement)
    requires WellFormed(n, s) && !s.Request?
    ensures BodilessMessage(id, m, path, ts) != Message(s)
  {
    PartsOf(n, s);
    ManyDots(id + "." + m, path, Text.PrintInt(ts));
  }

  /** Whatever the names hold: a body-less proof that reads as a body-signed one ends in its body hash. */
  lemma OverlapSpellsHash(id: string, m: string, path: string, ts: int, s: Statement)
    requires s.Request? && DotFree(s.bodyHash) && BodilessMessage(id, m, path, ts) == Message(s)
    ensures Text.PrintInt(ts) == s.bodyHash
  {
    LastDot(id + "." + m + "." + path, Text.PrintInt(ts),
            s.sessionId + "." + s.method_ + "." + s.path + "." + Text.PrintInt(s.ts), s.bodyHash);
  }

  /**
   * A body-less proof shares its text with a body-signed one if and only if the names agree, the
   * longer path ends in the other's timestamp, and its own timestamp spells the other's body hash.
   */
  lemma OverlapExactly(id: string, m: string, path: string, ts: int, s: Statement)
    requires DotFree(id) && DotFree(m) && WellFormed(NoDots, s) && s.Request?
    ensures BodilessMessage(id, m, path, ts) == Message(s) <==>
      && id == s.sessionId && m == s.method_
      && path == s.path + "." + Text.PrintInt(s.ts) && Text.PrintInt(ts) == s.bodyHash
  {
    var number := Text.PrintInt(s.ts);
    if BodilessMessage(id, m, path, ts) == Message(s) {
      BodilessParts(id, m, path, ts);
      RequestParts(s);
      SplitEnds(id, m, Text.Split(path, '.'), Text.PrintInt(ts), s, Text.Split(s.path, '.'), number);
      Text.SplitConcat(s.path, number, '.');
      Text.SplitSingle(number, '.');
      Text.SplitInjective(path, s.path + "." + number, '.');
    }
  }

  lemma SplitEnds(id: string, m: string, p: seq<string>, last: string, s: Statement, q: seq<string>, number: string)
    requires s.Request? && [id, m] + p + [last] == [s.sessionId, s.method_] + q + [number, s.bodyHash]
    ensures id == s.sessionId && m == s.method_ && p == q + [number] && last == s.bodyHash
  {
    var u, v := [id, m] + p + [last], [s.sessionId, s.method_] + q + [number, s.bodyHash];
    assert u[0] == v[0] && u[1] == v[1] && u[|u| - 1] == v[|v| - 1];
    assert u[2..|u| - 1] == p && v[2..|v| - 1] == q + [number];
  }
}
