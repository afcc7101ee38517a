/** Printing and parsing an HTTP request: src/network/http_request.cpp. */
module HttpRequest {
  import opened Options
  import opened Texts
  import opened Dictionary

  const CRLF := "\r\n"

  datatype Method = GET | PUT | POST | DELETE

  datatype Request = Request(queries: seq<Entry>, headers: seq<Entry>, verb: Method, http11: bool, path: string)

  const DEFAULT := Request([], [], GET, true, "")

  function MethodText(m: Method): string {
    match m case GET => "GET" case PUT => "PUT" case POST => "POST" case DELETE => "DELETE"
  }

  function TypeText(http11: bool): string {
    if http11 then "HTTP/1.1" else "HTTP/1.0"
  }

  // ---------------------------------------------------------------------------------------------
  // serialize
  // ---------------------------------------------------------------------------------------------

  function QueryText(q: seq<Entry>): string {
    if q == [] then ""
    else if |q| == 1 then q[0].0 + "=" + q[0].1
    else q[0].0 + "=" + q[0].1 + "&" + QueryText(q[1..])
  }

  function HeaderText(h: seq<Entry>): string {
    if h == [] then "" else h[0].0 + ": " + h[0].1 + CRLF + HeaderText(h[1..])
  }

  /** The request line, with what stands between the path and the version. */
  function RequestLine(verb: Method, target: string, http11: bool): string {
    MethodText(verb) + " " + target + " " + TypeText(http11)
  }

  function Target(r: Request): string {
    if r.queries == [] then r.path else r.path + "?" + QueryText(r.queries)
  }

  function Serialized(r: Request): string {
    RequestLine(r.verb, Target(r), r.http11) + CRLF + HeaderText(r.headers) + CRLF
  }

  lemma {:induction false} QueryTextSnoc(q: seq<Entry>, i: nat)
    requires 0 < i < |q|
    ensures QueryText(q[..i + 1]) == QueryText(q[..i]) + "&" + q[i].0 + "=" + q[i].1
  {
    if i == 1 {
      assert q[..2][1..] == [q[1]] && q[..1] == [q[0]];
    } else {
      QueryTextSnoc(q[1..], i - 1);
      assert q[..i + 1][1..] == q[1..][..i] && q[..i][1..] == q[1..][..i - 1];
    }
  }

  lemma {:induction false} HeaderTextSnoc(h: seq<Entry>, i: nat)
    requires i < |h|
    ensures HeaderText(h[..i + 1]) == HeaderText(h[..i]) + h[i].0 + ": " + h[i].1 + CRLF
  {
    if i == 0 {
      assert h[..1] == [h[0]] && h[..0] == [];
    } else {
      HeaderTextSnoc(h[1..], i - 1);
      OneInFront(h, i);
      OneInFront(h, i + 1);
    }
  }

  lemma OneInFront(h: seq<Entry>, i: nat)
    requires 0 < i <= |h|
    ensures h[..i][0] == h[0] && h[..i][1..] == h[1..][..i - 1]
    ensures HeaderText(h[..i]) == h[0].0 + ": " + h[0].1 + CRLF + HeaderText(h[1..][..i - 1])
  {
  }

  method WriteQueries(q: seq<Entry>) returns (s: string)
    ensures s == QueryText(q)
  {
    s := "";
    var i := 0;
    while i < |q|
      invariant 0 <= i <= |q| && s == QueryText(q[..i]) + (if 0 < i < |q| then "&" else "")
    {
      s := s + q[i].0 + "=" + q[i].1;
      if i > 0 { QueryTextSnoc(q, i); } else { assert q[..1] == [q[0]]; }
      i := i + 1;
      if i < |q| {
        s := s + "&";
      }
    }
    assert q[..i] == q;
  }

  method WriteHeaders(h: seq<Entry>) returns (s: string)
    ensures s == HeaderText(h)
  {
    s := "";
    for i := 0 to |h|
      invariant s == HeaderText(h[..i])
    {
      HeaderTextSnoc(h, i);
      s := s + h[i].0 + ": " + h[i].1 + CRLF;
    }
    assert h[..|h|] == h;
  }

  method Serialize(r: Request) returns (s: string)
    ensures s == Serialized(r)
  {
    s := MethodText(r.verb) + " ";
    s := s + r.path;
    if r.queries != [] {
      var q := WriteQueries(r.queries);
      s := s + "?" + q;
    }
    assert s == MethodText(r.verb) + " " + Target(r);
    s := s + " " + TypeText(r.http11) + CRLF;
    var h := WriteHeaders(r.headers);
    s := s + h + CRLF;
  }

  // ---------------------------------------------------------------------------------------------
  // deserialize
  // ---------------------------------------------------------------------------------------------

  function MethodOf(s: string, otherwise: Method): Method {
    if s == "GET" then GET else if s == "PUT" then PUT else if s == "POST" then POST
    else if s == "DELETE" then DELETE else otherwise
  }

  function VersionOf(s: string, otherwise: bool): bool {
    if s == "HTTP/1.0" then false else if s == "HTTP/1.1" then true else otherwise
  }

  /** Where the value behind the equals sign at `eq` ends. */
  function ValueEnd(text: string, eq: nat): (end: nat)
    requires eq < |text|
    ensures eq <= end <= |text|
  {
    match FindFrom(text, "&", eq) case None => |text| case Some(i) => i
  }

  lemma EqualsIsNoAmpersand(text: string, eq: nat)
    requires OccursAt(text, "=", eq)
    ensures eq < ValueEnd(text, eq)
  {
    assert text[eq] == text[eq..eq + 1][0];
    FindFromSpec(text, "&", eq);
    var amp := FindFrom(text, "&", eq);
    if amp.Some? {
      assert text[amp.value] == text[amp.value..amp.value + 1][0];
    }
  }

  function ParsedQueries(text: string, q: seq<Entry>): seq<Entry>
    decreases |text|
  {
    match Find(text, "=")
    case None => q
    case Some(eq) =>
      FindSpec(text, "=");
      EqualsIsNoAmpersand(text, eq);
      var end := ValueEnd(text, eq);
      var more := Assign(q, text[0..eq], text[eq + 1..end]);
      if end + 1 > |text| then more else ParsedQueries(text[end + 1..], more)
  }

  /** Path and queries from what stands between the method and the version. */
  function ParsedTarget(target: string, r: Request): Request {
    match Find(target, "?")
    case None => r.(path := target)
    case Some(i) => r.(path := target[..i], queries := ParsedQueries(target[i + 1..], r.queries))
  }

  function ParsedLine(line: string): Request {
    match Find(line, " ")
    case None => DEFAULT
    case Some(i) =>
      var r := DEFAULT.(verb := MethodOf(line[..i], GET));
      match FindFrom(line, " ", i + 1)
      case None => r
      case Some(j) => ParsedTarget(line[i + 1..j], r).(http11 := VersionOf(line[j + 1..], true))
  }

  function SkipSpaces(s: string, i: nat): (j: nat)
    requires i <= |s|
    ensures i <= j <= |s|
    decreases |s| - i
  {
    if i < |s| && s[i] == ' ' then SkipSpaces(s, i + 1) else i
  }

  function ParsedHeader(line: string, h: seq<Entry>): seq<Entry> {
    match Find(line, ":")
    case None => h
    case Some(i) => Assign(h, line[..i], line[SkipSpaces(line, i + 1)..])
  }

  /** What one header line adds to the entries before it. */
  type LineReader = (string, seq<Entry>) -> seq<Entry>

  function HeadersWith(read: LineReader, text: string, h: seq<Entry>): seq<Entry>
    decreases |text|
  {
    match Find(text, CRLF)
    case None => h
    case Some(end) => if end == 0 then h else HeadersWith(read, text[end + 2..], read(text[..end], h))
  }

  function ParsedHeaders(text: string, h: seq<Entry>): seq<Entry> {
    HeadersWith(ParsedHeader, text, h)
  }

  function Deserialized(data: string): Request {
    match Find(data, CRLF)
    case None => DEFAULT
    case Some(end) => ParsedLine(data[..end]).(headers := ParsedHeaders(data[end + 2..], []))
  }

  /** Searching on from a position is searching in what is left. */
  lemma {:induction false} FindInRest(s: string, p: string, from: nat, i: nat)
    requires from <= i <= |s|
    ensures FindFrom(s, p, i) == match FindFrom(s[from..], p, i - from) case None => None case Some(k) => Some(from + k)
    decreases |s| + 1 - i
  {
    var rest := s[from..];
    if i + |p| <= |s| {
      assert s[i..i + |p|] == rest[i - from..i - from + |p|];
      if s[i..i + |p|] != p && i + 1 <= |s| { FindInRest(s, p, from, i + 1); }
    }
  }

  /** One entry of a query text, by positions in the whole text. */
  lemma QueryStep(query: string, qpos: nat, r: seq<Entry>)
    requires qpos <= |query|
    ensures ParsedQueries(query[qpos..], r) ==
            match FindFrom(query, "=", qpos)
            case None => r
            case Some(eq) => (FindFromSpec(query, "=", qpos); AfterEntry(query, qpos, eq, r))
  {
    FindInRest(query, "=", qpos, qpos);
    FoundOccurs(query, "=", qpos);
    FoundOccurs(query[qpos..], "=", 0);
    FirstEntry(query[qpos..], r);
    var eqPos := FindFrom(query, "=", qpos);
    if eqPos.Some? { EntryInRest(query, qpos, eqPos.value, r); }
  }

  lemma FoundOccurs(s: string, p: string, from: nat)
    ensures FindFrom(s, p, from).Some? ==> OccursAt(s, p, FindFrom(s, p, from).value)
  {
    FindFromSpec(s, p, from);
  }

  lemma FirstEntry(text: string, r: seq<Entry>)
    ensures ParsedQueries(text, r) == match Find(text, "=") case None => r case Some(eq) => (FindSpec(text, "="); AfterEntry(text, 0, eq, r))
  {
  }

  lemma EntryInRest(query: string, qpos: nat, eq: nat, r: seq<Entry>)
    requires qpos <= eq && OccursAt(query, "=", eq) && OccursAt(query[qpos..], "=", eq - qpos)
    ensures AfterEntry(query, qpos, eq, r) == AfterEntry(query[qpos..], 0, eq - qpos, r)
  {
    EntryParts(query, qpos, eq);
  }

  lemma EntryParts(query: string, qpos: nat, eq: nat)
    requires qpos <= eq && OccursAt(query, "=", eq)
    ensures var rest, end := query[qpos..], ValueEnd(query, eq);
            && eq < end && ValueEnd(rest, eq - qpos) == end - qpos
            && rest[0..eq - qpos] == query[qpos..eq] && rest[eq - qpos + 1..end - qpos] == query[eq + 1..end]
            && (end + 1 <= |query| ==> rest[end - qpos + 1..] == query[end + 1..])
  {
    FindInRest(query, "&", qpos, eq);
    EqualsIsNoAmpersand(query, eq);
    SameParts(query, qpos, eq, ValueEnd(query, eq));
  }

  /** The entry from `qpos` with its equals sign at `eq`, and all that follow. */
  function AfterEntry(query: string, qpos: nat, eq: nat, r: seq<Entry>): seq<Entry>
    requires qpos <= eq && OccursAt(query, "=", eq)
  {
    EqualsIsNoAmpersand(query, eq);
    var end := ValueEnd(query, eq);
    WithEntry(query[qpos..eq], query[eq + 1..end], if end + 1 > |query| then None else Some(query[end + 1..]), r)
  }

  /** One entry, and what the text behind its ampersand gives. */
  function WithEntry(k: string, v: string, rest: Option<string>, r: seq<Entry>): seq<Entry> {
    match rest
    case None => Assign(r, k, v)
    case Some(text) => ParsedQueries(text, Assign(r, k, v))
  }

  /** Parts of a rest are parts of the whole. */
  lemma SameParts(s: string, from: nat, i: nat, j: nat)
    requires from <= i < j + 1 && i + 1 <= j + 1 <= |s| + 1 && i < |s|
    ensures s[from..][..i - from] == s[from..i]
    ensures i + 1 <= j ==> s[from..][i - from + 1..j - from] == s[i + 1..j]
    ensures j + 1 <= |s| ==> s[from..][j - from + 1..] == s[j + 1..]
  {
  }

  /** What the entries from `qpos` on give. */
  function QueriesFrom(query: string, qpos: nat, r: seq<Entry>): seq<Entry> {
    if qpos <= |query| then ParsedQueries(query[qpos..], r) else r
  }

  lemma QueriesNext(query: string, qpos: nat, r: seq<Entry>)
    requires qpos <= |query|
    ensures var eq := FindFrom(query, "=", qpos);
            && (eq.None? ==> QueriesFrom(query, qpos, r) == r)
            && (eq.Some? ==>
                  && OccursAt(query, "=", eq.value) && eq.value < ValueEnd(query, eq.value)
                  && QueriesFrom(query, qpos, r) ==
                     QueriesFrom(query, ValueEnd(query, eq.value) + 1,
                                 Assign(r, query[qpos..eq.value], query[eq.value + 1..ValueEnd(query, eq.value)])))
  {
    QueryStep(query, qpos, r);
    FoundOccurs(query, "=", qpos);
    var eq := FindFrom(query, "=", qpos);
    if eq.Some? { EqualsIsNoAmpersand(query, eq.value); }
  }

  method ReadQueries(query: string, q: seq<Entry>) returns (r: seq<Entry>)
    ensures r == ParsedQueries(query, q)
  {
    r := q;
    var qpos := 0;
    assert query[0..] == query;
    while qpos < |query|
      invariant ParsedQueries(query, q) == QueriesFrom(query, qpos, r)
      decreases |query| + 1 - qpos
    {
      QueriesNext(query, qpos, r);
      var eqPos := FindFrom(query, "=", qpos);
      if eqPos.None? {
        return;
      }
      var ampPos := FindFrom(query, "&", eqPos.value);
      var end := if ampPos.None? then |query| else ampPos.value;
      assert end == ValueEnd(query, eqPos.value);
      r := Assign(r, query[qpos..eqPos.value], query[eqPos.value + 1..end]);
      qpos := end + 1;
    }
    NoQueries(r);
  }

  lemma NoQueries(r: seq<Entry>)
    ensures ParsedQueries("", r) == r
  {
  }

  method ReadLine(line: string) returns (r: Request)
    ensures r == ParsedLine(line)
  {
    r := DEFAULT;
    var methodEnd := Find(line, " ");
    if methodEnd.Some? {
      r := r.(verb := MethodOf(line[..methodEnd.value], GET));
      var pathEnd := FindFrom(line, " ", methodEnd.value + 1);
      if pathEnd.Some? {
        var target := line[methodEnd.value + 1..pathEnd.value];
        var queryPos := Find(target, "?");
        if queryPos.Some? {
          var q := ReadQueries(target[queryPos.value + 1..], []);
          r := r.(path := target[..queryPos.value], queries := q);
        } else {
          r := r.(path := target);
        }
        r := r.(http11 := VersionOf(line[pathEnd.value + 1..], true));
      }
    }
  }

  method Deserialize(data: string) returns (r: Request)
    ensures r == Deserialized(data)
  {
    var first := Find(data, CRLF);
    if first.None? {
      return DEFAULT;
    }
    r := ReadLine(data[..first.value]);
    var headers := ReadHeaders(data, first.value + 2);
    r := r.(headers := headers);
  }

  /** One header line at the front of a text. */
  lemma FirstHeader(read: LineReader, text: string, line: string, rest: string, h: seq<Entry>)
    requires Find(text, CRLF) == Some(|line|) && text[..|line|] == line && text[|line| + 2..] == rest
    ensures HeadersWith(read, text, h) == if line == "" then h else HeadersWith(read, rest, read(line, h))
  {
  }

  lemma NoHeader(read: LineReader, text: string, h: seq<Entry>)
    requires Find(text, CRLF).None?
    ensures HeadersWith(read, text, h) == h
  {
  }

  lemma LineParts(data: string, pos: nat, end: nat)
    requires pos <= end && end + 2 <= |data|
    ensures data[pos..][..end - pos] == data[pos..end] && data[pos..][end - pos + 2..] == data[end + 2..]
  {
  }

  lemma LineFrom(data: string, pos: nat)
    requires pos <= |data|
    ensures Find(data[pos..], CRLF) ==
            match FindFrom(data, CRLF, pos) case None => None case Some(end) => Some(end - pos)
  {
    FindInRest(data, CRLF, pos, pos);
  }

  method ReadHeader(line: string, before: seq<Entry>) returns (h: seq<Entry>)
    ensures h == ParsedHeader(line, before)
  {
    var colon := Find(line, ":");
    if colon.None? {
      return before;
    }
    var valueStart := colon.value + 1;
    while valueStart < |line| && line[valueStart] == ' '
      invariant colon.value + 1 <= valueStart <= |line|
      invariant SkipSpaces(line, colon.value + 1) == SkipSpaces(line, valueStart)
    {
      valueStart := valueStart + 1;
    }
    h := Assign(before, line[..colon.value], line[valueStart..]);
  }

  /** What the header lines from `pos` on give, by positions in the whole text. */
  function HeadersFrom(read: LineReader, data: string, pos: nat, h: seq<Entry>): seq<Entry>
    requires pos <= |data|
    decreases |data| - pos
  {
    match FindFrom(data, CRLF, pos)
    case None => h
    case Some(end) => if end == pos then h else HeadersFrom(read, data, end + 2, read(data[pos..end], h))
  }

  ghost predicate HeadersAgree(read: LineReader, data: string, pos: nat, text: string, h: seq<Entry>) {
    pos <= |data| && HeadersFrom(read, data, pos, h) == HeadersWith(read, text, h)
  }

  lemma OneLineAgrees(read: LineReader, data: string, pos: nat, line: string, text: string, rest: string, h: seq<Entry>)
    requires pos <= |data| && FindFrom(data, CRLF, pos) == Some(pos + |line|) && data[pos..pos + |line|] == line
    requires Find(text, CRLF) == Some(|line|) && text[..|line|] == line && text[|line| + 2..] == rest
    requires line != "" ==> HeadersAgree(read, data, pos + |line| + 2, rest, read(line, h))
    ensures HeadersAgree(read, data, pos, text, h)
  {
  }

  lemma {:induction false} HeadersFromRest(read: LineReader, data: string, pos: nat, text: string, h: seq<Entry>)
    requires pos <= |data| && text == data[pos..]
    ensures HeadersAgree(read, data, pos, text, h)
    decreases |data| - pos
  {
    LineFrom(data, pos);
    if FindFrom(data, CRLF, pos).Some? {
      var end := FindFrom(data, CRLF, pos).value;
      var line, rest := data[pos..end], data[end + 2..];
      LineParts(data, pos, end);
      if end != pos {
        HeadersFromRest(read, data, end + 2, rest, read(line, h));
      }
      OneLineAgrees(read, data, pos, line, text, rest, h);
    } else {
      NoHeader(read, text, h);
    }
  }

  ghost predicate HeadersLeft(read: LineReader, goal: seq<Entry>, data: string, pos: nat, h: seq<Entry>) {
    goal == if pos < |data| then HeadersFrom(read, data, pos, h) else h
  }

  lemma HeadersStart(read: LineReader, data: string, start: nat, h: seq<Entry>)
    requires start <= |data|
    ensures HeadersLeft(read, HeadersWith(read, data[start..], h), data, start, h)
  {
    HeadersFromRest(read, data, start, data[start..], h);
    HeadersEnd(read, data, h);
  }

  lemma HeadersEnd(read: LineReader, data: string, h: seq<Entry>)
    ensures HeadersFrom(read, data, |data|, h) == h
  {
    NothingFrom(data, CRLF, |data|);
  }

  lemma HeadersStep(read: LineReader, goal: seq<Entry>, data: string, pos: nat, h: seq<Entry>)
    requires pos < |data| && HeadersLeft(read, goal, data, pos, h)
    ensures var end := FindFrom(data, CRLF, pos);
            if end.None? || end.value == pos then goal == h
            else HeadersLeft(read, goal, data, end.value + 2, read(data[pos..end.value], h))
  {
    var end := FindFrom(data, CRLF, pos);
    if end.Some? { HeadersEnd(read, data, read(data[pos..end.value], h)); }
  }

  method ReadHeaders(data: string, start: nat) returns (h: seq<Entry>)
    requires start <= |data|
    ensures h == ParsedHeaders(data[start..], [])
  {
    h := [];
    var pos := start;
    ghost var goal := ParsedHeaders(data[start..], []);
    HeadersStart(ParsedHeader, data, start, []);
    while pos < |data|
      invariant start <= pos <= |data| && HeadersLeft(ParsedHeader, goal, data, pos, h)
      decreases |data| - pos
    {
      HeadersStep(ParsedHeader, goal, data, pos, h);
      var end := FindFrom(data, CRLF, pos);
      if end.None? || end.value == pos {
        return;
      }
      h := ReadHeader(data[pos..end.value], h);
      pos := end.value + 2;
    }
  }

  lemma NothingFrom(data: string, p: string, pos: nat)
    requires pos == |data| && p != ""
    ensures FindFrom(data, p, pos).None?
  {
  }
}
