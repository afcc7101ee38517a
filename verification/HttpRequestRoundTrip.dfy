/** Parsing a printed request gives the request back: src/network/http_request.cpp. */
module HttpRequestRoundTrip {
  import opened Options
  import opened Texts
  import opened Dictionary
  import opened HttpRequest

  // ---------------------------------------------------------------------------------------------
  // Delimiters
  // ---------------------------------------------------------------------------------------------

  ghost predicate NoCrlf(s: string) {
    forall j: nat :: !OccursAt(s, CRLF, j)
  }

  lemma CrlfChars(s: string, j: nat)
    ensures OccursAt(s, CRLF, j) <==> j + 2 <= |s| && s[j] == '\r' && s[j + 1] == '\n'
  {
    if j + 2 <= |s| { assert s[j..j + 2] == [s[j], s[j + 1]]; }
  }

  /** Two texts without a line end have none together, unless it comes about at the seam. */
  lemma NoCrlfJoin(a: string, b: string)
    requires NoCrlf(a) && NoCrlf(b)
    requires a == "" || b == "" || a[|a| - 1] != '\r' || b[0] != '\n'
    ensures NoCrlf(a + b)
  {
    forall j: nat
      ensures !OccursAt(a + b, CRLF, j)
    {
      CrlfChars(a + b, j);
      if j + 2 <= |a| {
        CrlfChars(a, j);
      } else if j >= |a| {
        CrlfChars(b, j - |a|);
      }
    }
  }

  /** A line ends where its line end is. */
  lemma LineEnds(line: string, rest: string)
    requires NoCrlf(line)
    ensures Find(line + CRLF + rest, CRLF) == Some(|line|)
    ensures (line + CRLF + rest)[..|line|] == line && (line + CRLF + rest)[|line| + 2..] == rest
  {
    var s := line + CRLF + rest;
    CrlfChars(s, |line|);
    forall j: nat | j < |line|
      ensures !OccursAt(s, CRLF, j)
    {
      CrlfChars(s, j);
      CrlfChars(line, j);
    }
    FindIs(s, CRLF, |line|);
  }

  lemma CharAt(s: string, c: char, j: nat)
    ensures OccursAt(s, [c], j) <==> j < |s| && s[j] == c
  {
    if j < |s| { assert s[j..j + 1] == [s[j]]; }
  }

  /** The first occurrence of a character from a position on. */
  lemma CharFound(s: string, c: char, from: nat, i: nat)
    requires from <= i < |s| && s[i] == c && forall j :: from <= j < i ==> s[j] != c
    ensures FindFrom(s, [c], from) == Some(i)
  {
    CharAt(s, c, i);
    forall j: nat | from <= j < i
      ensures !OccursAt(s, [c], j)
    {
      CharAt(s, c, j);
    }
    FindFromSpec(s, [c], from);
    var r := FindFrom(s, [c], from);
    if r.Some? { CharAt(s, c, r.value); }
  }

  lemma CharMissing(s: string, c: char, from: nat)
    requires forall j :: from <= j < |s| ==> s[j] != c
    ensures FindFrom(s, [c], from) == None
  {
    FindFromSpec(s, [c], from);
    var r := FindFrom(s, [c], from);
    if r.Some? { CharAt(s, c, r.value); }
  }

  // ---------------------------------------------------------------------------------------------
  // Queries
  // ---------------------------------------------------------------------------------------------

  ghost predicate QueryOk(e: Entry) {
    '=' !in e.0 && ' ' !in e.0 && NoCrlf(e.0) && '&' !in e.1 && ' ' !in e.1 && NoCrlf(e.1)
  }

  /** One printed query is parsed as one entry, which takes its text and the ampersand behind it. */
  lemma QueryParsed(k: string, v: string, rest: string, more: bool, done: seq<Entry>)
    requires '=' !in k && '&' !in v && (!more ==> rest == "")
    ensures var text := k + "=" + v + (if more then "&" else "") + rest;
            ParsedQueries(text, done) == if more then ParsedQueries(rest, Assign(done, k, v)) else Assign(done, k, v)
  {
    var tail := (if more then "&" else "") + rest;
    var text, n := k + "=" + v + tail, |k| + 1 + |v|;
    assert text == k + "=" + v + (if more then "&" else "") + rest;
    CharFound(text, '=', 0, |k|);
    assert text[|k|] == '=' && (forall j :: |k| < j < n ==> text[j] == v[j - |k| - 1]);
    if more {
      assert text[n] == '&';
      CharFound(text, '&', |k|, n);
      assert text[n + 1..] == rest;
    } else {
      CharMissing(text, '&', |k|);
    }
    assert ValueEnd(text, |k|) == n;
    assert text[0..|k|] == k && text[|k| + 1..n] == v;
  }

  /** The entries one after the other, the last of two with the same key stays. */
  function AssignAll(done: seq<Entry>, q: seq<Entry>): seq<Entry>
    decreases |q|
  {
    if q == [] then done else AssignAll(Assign(done, q[0].0, q[0].1), q[1..])
  }

  lemma {:induction false} QueriesRead(q: seq<Entry>, done: seq<Entry>)
    requires forall e :: e in q ==> QueryOk(e)
    ensures ParsedQueries(QueryText(q), done) == AssignAll(done, q)
    decreases |q|
  {
    if q == [] {
      NoQueries(done);
    } else {
      assert QueryOk(q[0]) && forall e :: e in q[1..] ==> e in q;
      QueryParsed(q[0].0, q[0].1, QueryText(q[1..]), |q| > 1, done);
      QueryTextFirst(q);
      if |q| > 1 {
        QueriesRead(q[1..], Assign(done, q[0].0, q[0].1));
      }
    }
  }

  lemma QueryTextFirst(q: seq<Entry>)
    requires q != []
    ensures QueryText(q) == q[0].0 + "=" + q[0].1 + (if |q| > 1 then "&" else "") + QueryText(q[1..])
    ensures |q| == 1 ==> QueryText(q[1..]) == "" && q == [q[0]]
  {
  }

  lemma EntryMoved(h: seq<Entry>, done: seq<Entry>)
    requires h != []
    ensures done + h == (done + [h[0]]) + h[1..]
  {
  }

  lemma LastEntry(done: seq<Entry>, q: seq<Entry>)
    requires Sorted(done + q) && q != []
    ensures Assign(done, q[0].0, q[0].1) == done + [q[0]]
  {
    forall i | 0 <= i < |done|
      ensures Less(done[i].0, q[0].0)
    {
      assert (done + q)[i] == done[i] && (done + q)[|done|] == q[0];
    }
    AssignAtEnd(done, q[0].0, q[0].1);
  }

  lemma {:induction false} AssignAllSorted(q: seq<Entry>, done: seq<Entry>)
    requires Sorted(done + q)
    ensures AssignAll(done, q) == done + q
    decreases |q|
  {
    if q != [] {
      LastEntry(done, q);
      EntryMoved(q, done);
      AssignAllSorted(q[1..], done + [q[0]]);
    }
  }

  // ---------------------------------------------------------------------------------------------
  // Headers
  // ---------------------------------------------------------------------------------------------

  ghost predicate HeaderOk(e: Entry) {
    ':' !in e.0 && NoCrlf(e.0) && NoCrlf(e.1) && (e.1 == "" || e.1[0] != ' ')
  }

  lemma HeaderParsed(e: Entry, done: seq<Entry>)
    requires HeaderOk(e)
    ensures NoCrlf(e.0 + ": " + e.1) && ParsedHeader(e.0 + ": " + e.1, done) == Assign(done, e.0, e.1)
  {
    var line, n := e.0 + ": " + e.1, |e.0|;
    assert line[n] == ':' && line[n + 1] == ' ';
    CharFound(line, ':', 0, n);
    assert |line| > n + 2 ==> line[n + 2] == e.1[0];
    assert SkipSpaces(line, n + 2) == n + 2;
    assert SkipSpaces(line, n + 1) == n + 2;
    assert line[..n] == e.0 && line[n + 2..] == e.1;
    ShortIsClean(": ");
    NoCrlfJoin(e.0, ": ");
    NoCrlfJoin(e.0 + ": ", e.1);
  }

  lemma ShortIsClean(s: string)
    requires '\r' !in s
    ensures NoCrlf(s)
  {
    forall j: nat
      ensures !OccursAt(s, CRLF, j)
    {
      CrlfChars(s, j);
    }
  }

  lemma {:induction false} HeadersRead(h: seq<Entry>, done: seq<Entry>)
    requires forall e :: e in h ==> HeaderOk(e)
    ensures ParsedHeaders(HeaderText(h) + CRLF, done) == AssignAll(done, h)
    decreases |h|
  {
    if h == [] {
      ShortIsClean("");
      LineEnds("", "");
      assert HeaderText(h) + CRLF == "" + CRLF + "";
    } else {
      assert HeaderOk(h[0]) && forall e :: e in h[1..] ==> e in h;
      HeaderParsed(h[0], done);
      LineEnds(h[0].0 + ": " + h[0].1, HeaderText(h[1..]) + CRLF);
      HeaderTextFirst(h);
      HeadersRead(h[1..], Assign(done, h[0].0, h[0].1));
    }
  }

  lemma HeaderTextFirst(h: seq<Entry>)
    requires h != []
    ensures HeaderText(h) + CRLF == (h[0].0 + ": " + h[0].1) + CRLF + (HeaderText(h[1..]) + CRLF)
  {
  }

  // ---------------------------------------------------------------------------------------------
  // The request line
  // ---------------------------------------------------------------------------------------------

  lemma LineClean(verb: Method, target: string, http11: bool)
    requires NoCrlf(target)
    ensures NoCrlf(RequestLine(verb, target, http11))
  {
    var m, v := MethodText(verb), TypeText(http11);
    ShortIsClean(m + " ");
    ShortIsClean(" " + v);
    NoCrlfJoin(m + " ", target);
    NoCrlfJoin(m + " " + target, " " + v);
    assert m + " " + target + (" " + v) == RequestLine(verb, target, http11);
  }

  lemma LineParsed(verb: Method, target: string, http11: bool)
    requires ' ' !in target
    ensures ParsedLine(RequestLine(verb, target, http11)) ==
            ParsedTarget(target, DEFAULT.(verb := verb)).(http11 := http11)
  {
    WordsKnown(verb, http11);
    WordsParsed(MethodText(verb), target, TypeText(http11));
  }

  lemma WordsKnown(verb: Method, http11: bool)
    ensures ' ' !in MethodText(verb) && MethodOf(MethodText(verb), GET) == verb && VersionOf(TypeText(http11), true) == http11
  {
  }

  lemma WordsParsed(m: string, target: string, v: string)
    requires ' ' !in m && ' ' !in target
    ensures ParsedLine(m + " " + target + " " + v) ==
            ParsedTarget(target, DEFAULT.(verb := MethodOf(m, GET))).(http11 := VersionOf(v, true))
  {
    LineSplit(m, target, v);
  }

  lemma LineSplit(m: string, target: string, v: string)
    requires ' ' !in m && ' ' !in target
    ensures var line, n := m + " " + target + " " + v, |m| + 1 + |target|;
            && Find(line, " ") == Some(|m|) && line[..|m|] == m
            && FindFrom(line, " ", |m| + 1) == Some(n) && line[|m| + 1..n] == target && line[n + 1..] == v
  {
    SplitTwice(m, ' ', target, v);
  }

  lemma SplitTwice(a: string, c: char, b: string, d: string)
    requires c !in a && c !in b
    ensures var s, n := a + [c] + b + [c] + d, |a| + 1 + |b|;
            && Find(s, [c]) == Some(|a|) && s[..|a|] == a
            && FindFrom(s, [c], |a| + 1) == Some(n) && s[|a| + 1..n] == b && s[n + 1..] == d
  {
    var s := a + [c] + b + [c] + d;
    Parts(a, c, b, d);
    FirstChar(s, c, a, b, d);
    SecondChar(s, c, a, b, d);
  }

  lemma FirstChar(s: string, c: char, a: string, b: string, d: string)
    requires c !in a && s == a + [c] + b + [c] + d
    ensures Find(s, [c]) == Some(|a|)
  {
    assert s[|a|] == c && forall j :: 0 <= j < |a| ==> s[j] == a[j];
    CharFound(s, c, 0, |a|);
  }

  lemma Parts(a: string, c: char, b: string, d: string)
    ensures var s, n := a + [c] + b + [c] + d, |a| + 1 + |b|;
            s[..|a|] == a && s[|a| + 1..n] == b && s[n + 1..] == d
  {
  }

  lemma SecondChar(s: string, c: char, a: string, b: string, d: string)
    requires c !in b && s == a + [c] + b + [c] + d
    ensures FindFrom(s, [c], |a| + 1) == Some(|a| + 1 + |b|)
  {
    assert forall j :: |a| < j < |a| + 1 + |b| ==> s[j] == b[j - |a| - 1];
    assert s[|a| + 1 + |b|] == c;
    CharFound(s, c, |a| + 1, |a| + 1 + |b|);
  }

  /** A text is split where its first delimiter is. */
  lemma SplitAt(a: string, c: char, b: string)
    requires c !in a
    ensures var s := a + [c] + b; Find(s, [c]) == Some(|a|) && s[..|a|] == a && s[|a| + 1..] == b
  {
    var s := a + [c] + b;
    assert s[|a|] == c && forall j :: 0 <= j < |a| ==> s[j] == a[j];
    CharFound(s, c, 0, |a|);
  }

  /** A printed request whose target has no space and no line end, and whose headers are sorted and clean. */
  lemma TextParsed(verb: Method, target: string, http11: bool, headers: seq<Entry>)
    requires ' ' !in target && NoCrlf(target) && Sorted(headers) && forall e :: e in headers ==> HeaderOk(e)
    ensures Deserialized(RequestLine(verb, target, http11) + CRLF + HeaderText(headers) + CRLF) ==
            ParsedTarget(target, DEFAULT.(verb := verb)).(http11 := http11, headers := headers)
  {
    var line := RequestLine(verb, target, http11);
    LineAndHeaders(line, ParsedTarget(target, DEFAULT.(verb := verb)).(http11 := http11), headers) by {
      LineClean(verb, target, http11);
      LineParsed(verb, target, http11);
    }
    TextInTwo(line, HeaderText(headers));
    AllStay(headers);
  }

  lemma TextInTwo(line: string, lines: string)
    ensures line + CRLF + lines + CRLF == line + CRLF + (lines + CRLF)
  {
  }

  lemma AllStay(headers: seq<Entry>)
    requires Sorted(headers)
    ensures AssignAll([], headers) == headers
  {
    assert [] + headers == headers;
    AssignAllSorted(headers, []);
  }

  lemma LineAndHeaders(line: string, r: Request, headers: seq<Entry>)
    requires NoCrlf(line) && ParsedLine(line) == r && forall e :: e in headers ==> HeaderOk(e)
    ensures Deserialized(line + CRLF + (HeaderText(headers) + CRLF)) == r.(headers := AssignAll([], headers))
  {
    var rest := HeaderText(headers) + CRLF;
    LineEnds(line, rest);
    DeserializedParts(line + CRLF + rest, line, rest);
    HeadersRead(headers, []);
  }

  lemma DeserializedParts(data: string, line: string, rest: string)
    requires Find(data, CRLF) == Some(|line|) && data[..|line|] == line && data[|line| + 2..] == rest
    ensures Deserialized(data) == ParsedLine(line).(headers := ParsedHeaders(rest, []))
  {
  }

  lemma TargetParsed(path: string, q: string, r: Request)
    requires '?' !in path
    ensures ParsedTarget(path, r) == r.(path := path)
    ensures ParsedTarget(path + "?" + q, r) == r.(path := path, queries := ParsedQueries(q, r.queries))
  {
    CharMissing(path, '?', 0);
    SplitAt(path, '?', q);
  }

  // ---------------------------------------------------------------------------------------------
  // The round trip
  // ---------------------------------------------------------------------------------------------

  /** The text of the request has its delimiters only where the printer puts them. */
  ghost predicate Printable(r: Request) {
    && ' ' !in r.path && '?' !in r.path && NoCrlf(r.path)
    && Sorted(r.queries) && (forall e :: e in r.queries ==> QueryOk(e))
    && Sorted(r.headers) && (forall e :: e in r.headers ==> HeaderOk(e))
  }

  lemma {:induction false} QueryTextClean(q: seq<Entry>)
    requires forall e :: e in q ==> QueryOk(e)
    ensures ' ' !in QueryText(q) && NoCrlf(QueryText(q))
  {
    ShortIsClean("");
    if q != [] {
      assert QueryOk(q[0]);
      var (k, v) := q[0];
      ShortIsClean("=");
      NoCrlfJoin(k, "=");
      NoCrlfJoin(k + "=", v);
      if |q| > 1 {
        QueryTextClean(q[1..]);
        ShortIsClean("&");
        NoCrlfJoin(k + "=" + v, "&");
        NoCrlfJoin(k + "=" + v + "&", QueryText(q[1..]));
      }
    }
  }

  /** Printing and parsing gives back every printable request. */
  lemma RoundTrip(r: Request)
    requires Printable(r)
    ensures Deserialized(Serialized(r)) == r
  {
    var q := QueryText(r.queries);
    QueryTextClean(r.queries);
    TargetClean(r.path, q);
    TextParsed(r.verb, Target(r), r.http11, r.headers);
    TargetParsed(r.path, q, DEFAULT.(verb := r.verb));
    assert [] + r.queries == r.queries;
    QueriesRead(r.queries, []);
    AssignAllSorted(r.queries, []);
  }

  lemma TargetClean(path: string, q: string)
    requires ' ' !in path && NoCrlf(path) && ' ' !in q && NoCrlf(q)
    ensures ' ' !in path + "?" + q && NoCrlf(path + "?" + q)
  {
    ShortIsClean("?");
    NoCrlfJoin(path, "?");
    NoCrlfJoin(path + "?", q);
  }

  /** So two printable requests with the same text are the same. */
  lemma PrintedApart(r: Request, other: Request)
    requires Printable(r) && Printable(other) && Serialized(r) == Serialized(other)
    ensures r == other
  {
    RoundTrip(r);
    RoundTrip(other);
  }
}
