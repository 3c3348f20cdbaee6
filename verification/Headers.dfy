/** The Skipped header and the Cookie header: what their parsers return, and how that respects concatenation. */
module Headers {
  import opened Basics
  import Text

  // ---------------------------------------------------------------- Secure-Session-Skipped

  const SKIPPED_REASONS := {"unreachable", "server_error", "quota_exceeded"}

  datatype SkippedEntry = SkippedEntry(reason: string, sessionId: Option<string>)

  /** A request header as the server framework hands it over. */
  datatype HeaderValue = Absent | Single(text: string) | Many(texts: seq<string>)

  function Unquote(v: string): string {
    if v != "" && v[0] == '"' && v[|v| - 1] == '"' then if |v| >= 2 then v[1..|v| - 1] else "" else v
  }

  /** The session_identifier parameter, the last one winning. */
  function SessionParam(params: seq<string>, found: Option<string>): Option<string> {
    if params == [] then found
    else
      match Text.IndexOf(params[0], '=')
      case None => SessionParam(params[1..], found)
      case Some(eq) =>
        if Text.Trim(params[0][..eq]) == "session_identifier"
        then SessionParam(params[1..], Some(Unquote(Text.Trim(params[0][eq + 1..]))))
        else SessionParam(params[1..], found)
  }

  function ItemEntries(item: string): seq<SkippedEntry> {
    var trimmed := Text.Trim(item);
    if trimmed == "" then []
    else
      var parts := Text.Split(trimmed, ';');
      var reason := Text.Trim(parts[0]);
      if reason !in SKIPPED_REASONS then [] else [SkippedEntry(reason, SessionParam(parts[1..], None))]
  }

  function ItemsEntries(items: seq<string>): seq<SkippedEntry> {
    if items == [] then [] else ItemEntries(items[0]) + ItemsEntries(items[1..])
  }

  function SkippedEntries(value: string): seq<SkippedEntry> {
    ItemsEntries(Text.Split(value, ','))
  }

  method FindSessionParam(params: seq<string>) returns (sessionId: Option<string>)
    ensures sessionId == SessionParam(params, None)
  {
    sessionId := None;
    for i := 0 to |params|
      invariant SessionParam(params, None) == SessionParam(params[i..], sessionId)
    {
      assert params[i..][0] == params[i] && params[i..][1..] == params[i + 1..];
      var eq := Text.IndexOf(params[i], '=');
      if eq.None? {
        continue;
      }
      var key := Text.Trim(params[i][..eq.value]);
      var val := Unquote(Text.Trim(params[i][eq.value + 1..]));
      if key == "session_identifier" {
        sessionId := Some(val);
      }
    }
  }

  lemma OneMoreItem(items: seq<string>, i: nat)
    requires i < |items|
    ensures ItemsEntries(items[..i + 1]) == ItemsEntries(items[..i]) + ItemEntries(items[i])
  {
    assert items[..i + 1] == items[..i] + [items[i]] && [items[i]][1..] == [];
    ItemsConcat(items[..i], [items[i]]);
  }

  /** One comma-separated item: an entry if it names a known reason. */
  method ParseSkippedItem(item: string) returns (found: seq<SkippedEntry>)
    ensures found == ItemEntries(item)
  {
    var trimmed := Text.Trim(item);
    if trimmed == "" {
      return [];
    }
    var parts := Text.Split(trimmed, ';');
    var reason := Text.Trim(parts[0]);
    if reason !in SKIPPED_REASONS {
      return [];
    }
    var sessionId := FindSessionParam(parts[1..]);
    return [SkippedEntry(reason, sessionId)];
  }

  /** parseSessionSkippedHeader, with the legacy name as fallback and array values joined by ", ". */
  method ParseSessionSkippedHeader(current: HeaderValue, legacy: HeaderValue) returns (entries: seq<SkippedEntry>)
    ensures entries == Skipped(if current.Absent? then legacy else current)
  {
    entries := [];
    var raw := if current.Absent? then legacy else current;
    if raw.Absent? || raw == Single("") {
      return;
    }
    var value := if raw.Many? then Text.Join(raw.texts, ", ") else raw.text;
    var items := Text.Split(value, ',');
    for i := 0 to |items|
      invariant entries == ItemsEntries(items[..i])
    {
      var found := ParseSkippedItem(items[i]);
      entries := entries + found;
      OneMoreItem(items, i);
    }
    assert items[..|items|] == items;
  }

  function Skipped(raw: HeaderValue): seq<SkippedEntry> {
    match raw
    case Absent => []
    case Single(text) => if text == "" then [] else SkippedEntries(text)
    case Many(texts) => SkippedEntries(Text.Join(texts, ", "))
  }

  lemma {:induction false} ItemsConcat(a: seq<string>, b: seq<string>)
    ensures ItemsEntries(a + b) == ItemsEntries(a) + ItemsEntries(b)
  {
    if a == [] {
      assert a + b == b;
    } else {
      assert (a + b)[1..] == a[1..] + b;
      ItemsConcat(a[1..], b);
    }
  }

  /** The blank that an array join puts in front of an element changes nothing. */
  lemma LeadingBlank(value: string)
    ensures SkippedEntries(" " + value) == SkippedEntries(value)
  {}

  function ConcatEach(texts: seq<string>): seq<SkippedEntry> {
    if texts == [] then [] else SkippedEntries(texts[0]) + ConcatEach(texts[1..])
  }

  /** An array-valued header parses to the parses of its elements, in order. */
  lemma {:induction false} SkippedArray(texts: seq<string>)
    ensures Skipped(Many(texts)) == ConcatEach(texts)
  {
    if |texts| > 1 {
      var first, rest := texts[0], Text.Join(texts[1..], ", ");
      assert Text.Join(texts, ", ") == first + [','] + (" " + rest);
      Text.SplitConcat(first, " " + rest, ',');
      ItemsConcat(Text.Split(first, ','), Text.Split(" " + rest, ','));
      LeadingBlank(rest);
      SkippedArray(texts[1..]);
    } else if |texts| == 1 {
      assert texts[1..] == [];
    }
  }

  // ---------------------------------------------------------------- what a single item reads to

  /** A double quote on both sides goes, and nothing else; a quote alone reads as both. */
  lemma Unquotes(v: string, inner: string)
    ensures v == "\"" + inner + "\"" ==> Unquote(v) == inner
    ensures v == "\"" ==> Unquote(v) == ""
    ensures !("\"" <= v && v[|v| - 1] == '"') ==> Unquote(v) == v
  {
    assert v == "\"" + inner + "\"" ==> v[1..|v| - 1] == inner;
  }

  /** The parameter names the session: that is what stands before its first equals sign. */
  ghost predicate NamesSession(param: string) {
    exists left, right :: param == left + "=" + right && '=' !in left && Text.Trim(left) == "session_identifier"
  }

  lemma NamedParam(left: string, right: string, params: seq<string>, found: Option<string>)
    requires '=' !in left && Text.Trim(left) == "session_identifier"
    ensures SessionParam([left + "=" + right] + params, found) == SessionParam(params, Some(Unquote(Text.Trim(right))))
  {
    var param := left + "=" + right;
    Text.IndexOfField(left, '=', right);
    assert param[..|left|] == left && param[|left| + 1..] == right;
    assert ([param] + params)[1..] == params;
  }

  lemma OtherParam(param: string, params: seq<string>, found: Option<string>)
    requires !NamesSession(param)
    ensures SessionParam([param] + params, found) == SessionParam(params, found)
  {
    assert ([param] + params)[1..] == params;
    var eq := Text.IndexOf(param, '=');
    if eq.Some? {
      var left, right := param[..eq.value], param[eq.value + 1..];
      assert param == left + "=" + right && '=' !in left;
    }
  }

  lemma {:induction false} NoneNamed(params: seq<string>, found: Option<string>)
    requires forall p <- params :: !NamesSession(p)
    ensures SessionParam(params, found) == found
  {
    if params != [] {
      assert [params[0]] + params[1..] == params;
      OtherParam(params[0], params[1..], found);
      NoneNamed(params[1..], found);
    }
  }

  /** The last parameter that names the session gives the id, unquoted, blanks around it aside. */
  lemma {:induction false} LastNamed(before: seq<string>, left: string, right: string, after: seq<string>,
                                     found: Option<string>)
    requires '=' !in left && Text.Trim(left) == "session_identifier" && forall p <- after :: !NamesSession(p)
    ensures SessionParam(before + [left + "=" + right] + after, found) == Some(Unquote(Text.Trim(right)))
  {
    var rest := [left + "=" + right] + after;
    if before == [] {
      assert before + [left + "=" + right] + after == rest;
      NamedParam(left, right, after, found);
      NoneNamed(after, Some(Unquote(Text.Trim(right))));
    } else {
      var params := before[1..] + [left + "=" + right] + after;
      assert before + [left + "=" + right] + after == [before[0]] + params;
      if NamesSession(before[0]) {
        var l, r :| before[0] == l + "=" + r && '=' !in l && Text.Trim(l) == "session_identifier";
        NamedParam(l, r, params, found);
        LastNamed(before[1..], left, right, after, Some(Unquote(Text.Trim(r))));
      } else {
        OtherParam(before[0], params, found);
        LastNamed(before[1..], left, right, after, found);
      }
    }
  }

  function Quoted(text: string): string {
    "\"" + text + "\""
  }

  /** The parameter and the entry as a browser writes them. */
  function PrintParam(id: string): string {
    "session_identifier" + "=" + Quoted(id)
  }

  function PrintEntry(e: SkippedEntry): string {
    if e.sessionId.Some? then e.reason + ";" + PrintParam(e.sessionId.value) else e.reason
  }

  /** One of the three reasons, and an id that holds neither separator. */
  predicate Printable(e: SkippedEntry) {
    && (e.reason == "unreachable" || e.reason == "server_error" || e.reason == "quota_exceeded")
    && (e.sessionId.Some? ==> ';' !in e.sessionId.value && ',' !in e.sessionId.value)
  }

  /** A non-empty text with no blank at either end. */
  predicate Tight(s: string) {
    s != "" && !Text.IsSpace(s[0]) && !Text.IsSpace(s[|s| - 1])
  }

  lemma TightIsTrimmed(s: string)
    requires Tight(s)
    ensures Text.Trim(s) == s
  {}

  lemma ReasonsArePlain(reason: string)
    requires reason == "unreachable" || reason == "server_error" || reason == "quota_exceeded"
    ensures Tight(reason) && ';' !in reason && ',' !in reason && reason in SKIPPED_REASONS
  {
    if reason == "unreachable" {
    } else if reason == "server_error" {
    }
  }

  lemma NameIsPlain()
    ensures Tight("session_identifier") && '=' !in "session_identifier"
    ensures ';' !in "session_identifier" && ',' !in "session_identifier"
  {}

  lemma QuotedReads(id: string)
    ensures Tight(Quoted(id)) && Unquote(Quoted(id)) == id
    ensures forall c :: c != '"' && c !in id ==> c !in Quoted(id)
  {
    Unquotes(Quoted(id), id);
  }

  lemma ParamReads(name: string, id: string)
    requires Tight(name) && '=' !in name && name == "session_identifier"
    ensures SessionParam([name + "=" + Quoted(id)], None) == Some(id)
  {
    TightIsTrimmed(name);
    QuotedReads(id);
    TightIsTrimmed(Quoted(id));
    NamedParam(name, Quoted(id), [], None);
    assert [name + "=" + Quoted(id)] + [] == [name + "=" + Quoted(id)];
  }

  lemma PlainParam(name: string, id: string, c: char)
    requires c !in name && c !in id && c != '=' && c != '"'
    ensures c !in name + "=" + Quoted(id)
  {
    QuotedReads(id);
  }

  lemma ItemWithParam(reason: string, param: string)
    requires Tight(reason) && ';' !in reason && ';' !in param && Tight(reason + ";" + param) && reason in SKIPPED_REASONS
    ensures ItemEntries(reason + ";" + param) == [SkippedEntry(reason, SessionParam([param], None))]
  {
    TightIsTrimmed(reason + ";" + param);
    TightIsTrimmed(reason);
    Text.SplitField(reason, param, ';');
    Text.SplitSingle(param, ';');
    assert ([reason] + [param])[1..] == [param];
  }

  lemma ItemAlone(reason: string)
    requires Tight(reason) && ';' !in reason && reason in SKIPPED_REASONS
    ensures ItemEntries(reason) == [SkippedEntry(reason, None)]
  {
    TightIsTrimmed(reason);
    Text.SplitSingle(reason, ';');
    assert [reason][1..] == [];
  }

  lemma JoinedTight(a: string, b: string)
    requires Tight(a) && b != "" && !Text.IsSpace(b[|b| - 1])
    ensures Tight(a + ";" + b)
  {}

  /** An entry reads back as it was written. */
  lemma EntryReads(e: SkippedEntry)
    requires Printable(e)
    ensures ',' !in PrintEntry(e) && ItemEntries(PrintEntry(e)) == [e]
  {
    ReasonsArePlain(e.reason);
    if e.sessionId.None? {
      ItemAlone(e.reason);
    } else {
      var id, name := e.sessionId.value, "session_identifier";
      NameIsPlain();
      ParamReads(name, id);
      PlainParam(name, id, ';');
      PlainParam(name, id, ',');
      JoinedTight(e.reason, name + "=" + Quoted(id));
      ItemWithParam(e.reason, name + "=" + Quoted(id));
    }
  }

  function PrintEach(entries: seq<SkippedEntry>): (texts: seq<string>)
    ensures |texts| == |entries|
  {
    if entries == [] then [] else [PrintEntry(entries[0])] + PrintEach(entries[1..])
  }

  lemma OneItem(text: string)
    requires ',' !in text
    ensures SkippedEntries(text) == ItemEntries(text)
  {
    Text.SplitSingle(text, ',');
    assert [text][1..] == [];
  }

  lemma {:induction false} EachReads(entries: seq<SkippedEntry>)
    requires forall e <- entries :: Printable(e)
    ensures ConcatEach(PrintEach(entries)) == entries
  {
    if entries != [] {
      var text, rest := PrintEntry(entries[0]), PrintEach(entries[1..]);
      EntryReads(entries[0]);
      OneItem(text);
      EachReads(entries[1..]);
      assert ([text] + rest)[1..] == rest;
      assert [entries[0]] + entries[1..] == entries;
    }
  }

  /** Round trip: what a browser writes, as one header or as several, is what the parser returns. */
  lemma SkippedReads(entries: seq<SkippedEntry>)
    requires forall e <- entries :: Printable(e)
    ensures Skipped(Many(PrintEach(entries))) == entries
    ensures Skipped(Single(Text.Join(PrintEach(entries), ", "))) == entries
  {
    SkippedArray(PrintEach(entries));
    EachReads(entries);
  }

  /** Any other item: nothing without a known reason, else one entry with the id of its parameters. */
  lemma ItemExactly(item: string)
    ensures var parts := Text.Split(Text.Trim(item), ';');
      var reason := Text.Trim(parts[0]);
      if reason == "unreachable" || reason == "server_error" || reason == "quota_exceeded"
      then ItemEntries(item) == [SkippedEntry(reason, SessionParam(parts[1..], None))]
      else ItemEntries(item) == []
  {}

  // ---------------------------------------------------------------- Cookie

  /** One cookie of a header: a trimmed, non-empty name and its unquoted, percent-decoded value. */
  function CookieOf(decode: string -> Option<string>, part: string): Option<(string, string)> {
    match Text.IndexOf(part, '=')
    case None => None
    case Some(eq) =>
      var name := Text.Trim(part[..eq]);
      if name == "" then None
      else
        var raw := Text.Trim(part[eq + 1..]);
        var value := if |raw| >= 2 then Unquote(raw) else raw;
        Some((name, match decode(value) case Some(text) => text case None => value))
  }

  /** A value as it was before it was percent-encoded, or as it stands where it does not decode. */
  function Decoded(decode: string -> Option<string>, value: string): string {
    match decode(value) case Some(text) => text case None => value
  }

  /**
   * A part reads to the name before its first equals sign and the value behind it, blanks around both
   * aside, the value decoded and before that rid of a pair of quotes; a part without a name to nothing.
   */
  lemma CookieReads(decode: string -> Option<string>, left: string, right: string, inner: string)
    requires '=' !in left
    ensures var read, v := CookieOf(decode, left + "=" + right), Text.Trim(right);
      if Text.Trim(left) == "" then read == None
      else
        && read.Some? && read.value.0 == Text.Trim(left)
        && (v == "\"" + inner + "\"" ==> read.value.1 == Decoded(decode, inner))
        && (!("\"" <= v && v[|v| - 1] == '"') || |v| < 2 ==> read.value.1 == Decoded(decode, v))
  {
    var part := left + "=" + right;
    Text.IndexOfField(left, '=', right);
    assert part[..|left|] == left && part[|left| + 1..] == right;
    Unquotes(Text.Trim(right), inner);
  }

  lemma NoCookie(decode: string -> Option<string>, part: string)
    requires '=' !in part
    ensures CookieOf(decode, part) == None
  {}

  /** The first cookie of a name wins. */
  function AddCookies(decode: string -> Option<string>, parts: seq<string>, out: map<string, string>): map<string,
                      string> {
    if parts == [] then out
    else
      match CookieOf(decode, parts[0])
      case None => AddCookies(decode, parts[1..], out)
      case Some(cookie) =>
        AddCookies(decode, parts[1..], if cookie.0 in out then out else out[cookie.0 := cookie.1])
  }

  function Cookies(decode: string -> Option<string>, header: string): map<string, string> {
    AddCookies(decode, Text.Split(header, ';'), map[])
  }

  /** parseCookieHeader; decode is decodeURIComponent, None where it throws. */
  method ParseCookieHeader(decode: string -> Option<string>, header: string) returns (out: map<string, string>)
    ensures out == Cookies(decode, header)
  {
    out := map[];
    if header == "" {
      return;
    }
    var parts := Text.Split(header, ';');
    for i := 0 to |parts|
      invariant AddCookies(decode, parts, map[]) == AddCookies(decode, parts[i..], out)
    {
      assert parts[i..][0] == parts[i] && parts[i..][1..] == parts[i + 1..];
      var eq := Text.IndexOf(parts[i], '=');
      if eq.None? {
        continue;
      }
      var name := Text.Trim(parts[i][..eq.value]);
      if name == "" {
        continue;
      }
      var value := Text.Trim(parts[i][eq.value + 1..]);
      if |value| >= 2 {
        value := Unquote(value);
      }
      var decoded := decode(value);
      if decoded.Some? {
        value := decoded.value;
      }
      if name !in out {
        out := out[name := value];
      }
    }
  }

  /** Cookies found later never change what is already there. */
  lemma {:induction false} EarlierWins(decode: string -> Option<string>, parts: seq<string>, out: map<string, string>)
    ensures AddCookies(decode, parts, out) == AddCookies(decode, parts, map[]) + out
  {
    if parts != [] {
      match CookieOf(decode, parts[0])
      case None => EarlierWins(decode, parts[1..], out);
      case Some(cookie) =>
        var more := if cookie.0 in out then out else out[cookie.0 := cookie.1];
        EarlierWins(decode, parts[1..], more);
        EarlierWins(decode, parts[1..], map[cookie.0 := cookie.1]);
        var rest := AddCookies(decode, parts[1..], map[]);
        assert rest + more == rest + map[cookie.0 := cookie.1] + out;
        assert map[][cookie.0 := cookie.1] == map[cookie.0 := cookie.1];
    }
  }

  /** A name has the value that the first part naming it gives, and no other names appear. */
  lemma {:induction false} FirstWins(decode: string -> Option<string>, parts: seq<string>, name: string)
    ensures var out, i := AddCookies(decode, parts, map[]), FirstNaming(decode, parts, name);
      if i == |parts| then name !in out else name in out && CookieOf(decode, parts[i]) == Some((name, out[name]))
  {
    if parts != [] {
      var rest := parts[1..];
      FirstWins(decode, rest, name);
      match CookieOf(decode, parts[0])
      case None =>
      case Some(cookie) => EarlierWins(decode, rest, map[cookie.0 := cookie.1]);
    }
  }

  predicate NamesCookie(decode: string -> Option<string>, part: string, name: string) {
    var cookie := CookieOf(decode, part);
    cookie.Some? && cookie.value.0 == name
  }

  /** The index of the first part that names a cookie, or the number of parts. */
  function FirstNaming(decode: string -> Option<string>, parts: seq<string>, name: string): (i: nat)
    ensures i <= |parts|
    ensures i < |parts| ==> NamesCookie(decode, parts[i], name)
    ensures forall j :: 0 <= j < i ==> !NamesCookie(decode, parts[j], name)
  {
    if parts == [] then 0
    else if NamesCookie(decode, parts[0], name) then 0
    else 1 + FirstNaming(decode, parts[1..], name)
  }

  lemma {:induction false} AddConcat(decode: string -> Option<string>, a: seq<string>, b: seq<string>,
                                     out: map<string, string>)
    ensures AddCookies(decode, a + b, out) == AddCookies(decode, b, AddCookies(decode, a, out))
  {
    if a == [] {
      assert a + b == b;
    } else {
      assert (a + b)[1..] == a[1..] + b;
      match CookieOf(decode, a[0])
      case None => AddConcat(decode, a[1..], b, out);
      case Some(cookie) => AddConcat(decode, a[1..], b, if cookie.0 in out then out else out[cookie.0 := cookie.1]);
    }
  }

  /** Two headers joined by ";" parse to the first one's cookies and the second one's new names. */
  lemma CookiesJoined(decode: string -> Option<string>, a: string, b: string)
    ensures Cookies(decode, a + ";" + b) == Cookies(decode, b) + Cookies(decode, a)
  {
    Text.SplitConcat(a, b, ';');
    AddConcat(decode, Text.Split(a, ';'), Text.Split(b, ';'), map[]);
    EarlierWins(decode, Text.Split(b, ';'), Cookies(decode, a));
  }
}
