/** The text of a request, by sections 3 and 5 of RFC 9112: what src/network/http_request.cpp prints and reads. */
module HttpRequestWire {
  import opened Options
  import opened Texts
  import opened Dictionary
  import opened HttpRequest
  import opened HttpRequestRoundTrip
  import opened HttpWire

  // ---------------------------------------------------------------------------------------------
  // Printing
  // ---------------------------------------------------------------------------------------------

  lemma PairsRest(q: seq<Entry>)
    requires q != []
    ensures Pairs(q)[0] == q[0].0 + "=" + q[0].1 && Pairs(q)[1..] == Pairs(q[1..])
  {
  }

  lemma {:induction false} QueryTextJoined(q: seq<Entry>)
    ensures QueryText(q) == Join(Pairs(q), "&")
  {
    if q != [] {
      PairsRest(q);
      QueryTextJoined(q[1..]);
      QueryTextFirst(q);
      if |q| > 1 { JoinFirst(Pairs(q), "&"); }
    }
  }

  lemma {:induction false} HeaderTextLines(h: seq<Entry>)
    ensures HeaderText(h) == FieldLines(h)
  {
    if h != [] {
      HeaderTextLines(h[1..]);
      FieldLinesFirst(h);
    }
  }

  /** The word for a verb. */
  predicate Denotes(word: string, verb: Method) {
    (word == "GET" && verb == GET) || (word == "PUT" && verb == PUT) || (word == "POST" && verb == POST) || (word == "DELETE" && verb == DELETE)
  }

  /** What stands between verb and version: the path, and the queries if there are any. */
  function TargetText(path: string, q: seq<Entry>): string {
    if q == [] then path else path + "?" + Join(Pairs(q), "&")
  }

  lemma TargetPrinted(r: Request)
    ensures Target(r) == TargetText(r.path, r.queries)
  {
    QueryTextJoined(r.queries);
  }

  /** The text sent, for every request: verb, target and version with a space between them and a line end behind them, a line for
      each header, and a blank line. */
  lemma SerializedText(r: Request, word: string)
    requires Denotes(word, r.verb)
    ensures Serialized(r) == word + " " + TargetText(r.path, r.queries) + " " + (if r.http11 then "HTTP/1.1" else "HTTP/1.0") + "\r\n"
                             + FieldLines(r.headers) + "\r\n"
  {
    TargetPrinted(r);
    HeaderTextLines(r.headers);
    assert MethodText(r.verb) == word;
  }

  // ---------------------------------------------------------------------------------------------
  // Reading
  // ---------------------------------------------------------------------------------------------

  /** The line and what follows are read apart. */
  lemma LineRead(word: string, target: string, version: string, rest: string)
    requires ' ' !in word && NoCrlf(word) && ' ' !in target && NoCrlf(target) && NoCrlf(version)
    ensures Deserialized(word + " " + target + " " + version + "\r\n" + rest) ==
            ParsedTarget(target, DEFAULT.(verb := MethodOf(word, GET)))
              .(http11 := VersionOf(version, true), headers := ParsedHeaders(rest, []))
  {
    var line := word + " " + target + " " + version;
    ShortIsClean(" ");
    NoCrlfJoin(word, " ");
    NoCrlfJoin(word + " ", target);
    NoCrlfJoin(word + " " + target, " ");
    NoCrlfJoin(word + " " + target + " ", version);
    LineEnds(line, rest);
    DeserializedParts(line + CRLF + rest, line, rest);
    WordsParsed(word, target, version);
  }

  /** For every line of three words: the verb is that of its first word, and GET for every other word; the version is 1.1 unless the
      last word says 1.0; and what stands before a question mark is the path. */
  lemma ReadsLine(word: string, target: string, version: string, rest: string)
    requires ' ' !in word && NoCrlf(word) && ' ' !in target && NoCrlf(target) && NoCrlf(version)
    ensures var r := Deserialized(word + " " + target + " " + version + "\r\n" + rest);
            && (r.verb == PUT <==> word == "PUT") && (r.verb == POST <==> word == "POST") && (r.verb == DELETE <==> word == "DELETE")
            && (r.verb == GET <==> word !in ["PUT", "POST", "DELETE"])
            && (r.http11 <==> version != "HTTP/1.0")
            && r.path <= target && '?' !in r.path && (|r.path| < |target| ==> target[|r.path|] == '?')
  {
    LineRead(word, target, version, rest);
    PathRead(target, DEFAULT.(verb := MethodOf(word, GET)));
  }

  lemma PathRead(target: string, r: Request)
    ensures var p := ParsedTarget(target, r);
            && p.verb == r.verb && p.path <= target && '?' !in p.path && (|p.path| < |target| ==> target[|p.path|] == '?')
  {
    FindSpec(target, "?");
    var i := Find(target, "?");
    forall j | 0 <= j < (if i.Some? then i.value else |target|)
      ensures target[j] != '?'
    {
      CharAt(target, '?', j);
    }
    if i.Some? { CharAt(target, '?', i.value); }
  }

  lemma {:induction false} AssignGet(d: seq<Entry>, k: string, v: string, x: string)
    ensures Get(Assign(d, k, v), x) == if x == k then Some(v) else Get(d, x)
  {
    if d != [] && k != d[0].0 {
      if Less(k, d[0].0) {
        assert ([(k, v)] + d)[1..] == d;
      } else {
        AssignGet(d[1..], k, v, x);
        assert ([d[0]] + Assign(d[1..], k, v))[1..] == Assign(d[1..], k, v);
      }
    } else if d != [] {
      assert ([(k, v)] + d[1..])[1..] == d[1..];
    }
  }

  /** Each name has the last value that was given for it. */
  ghost predicate LastWins(d: seq<Entry>, fields: seq<Entry>) {
    Sorted(d) && forall k, v :: Get(d, k) == Some(v) <==> LastField(fields, k, v)
  }

  lemma {:induction false} AssignedLast(done: seq<Entry>, q: seq<Entry>, k: string, v: string)
    requires Sorted(done)
    ensures Sorted(AssignAll(done, q))
    ensures Get(AssignAll(done, q), k) == Some(v) <==>
            LastField(q, k, v) || (Get(done, k) == Some(v) && forall i :: 0 <= i < |q| ==> q[i].0 != k)
    decreases |q|
  {
    if q != [] {
      AssignSorted(done, q[0].0, q[0].1);
      AssignGet(done, q[0].0, q[0].1, k);
      AssignedLast(Assign(done, q[0].0, q[0].1), q[1..], k, v);
      LastOfRest(q, k, v);
    }
  }

  lemma LastOfRest(q: seq<Entry>, k: string, v: string)
    requires q != []
    ensures LastField(q, k, v) <==> LastField(q[1..], k, v) || (q[0] == (k, v) && forall i :: 0 <= i < |q[1..]| ==> q[1..][i].0 != k)
    ensures (forall i :: 0 <= i < |q| ==> q[i].0 != k) <==> q[0].0 != k && forall i :: 0 <= i < |q[1..]| ==> q[1..][i].0 != k
  {
    var rest := q[1..];
    assert forall i :: 1 <= i < |q| ==> q[i] == rest[i - 1];
    if LastField(rest, k, v) {
      var i :| 0 <= i < |rest| && rest[i] == (k, v) && forall j :: i < j < |rest| ==> rest[j].0 != k;
      assert q[i + 1] == (k, v);
    }
    if LastField(q, k, v) {
      var i :| 0 <= i < |q| && q[i] == (k, v) && forall j :: i < j < |q| ==> q[j].0 != k;
      if i > 0 { assert rest[i - 1] == (k, v); }
      forall j | (if i == 0 then 0 else i) <= j < |rest|
        ensures rest[j].0 != k
      {
        assert rest[j] == q[j + 1];
      }
    }
  }

  lemma AllAssigned(fields: seq<Entry>)
    ensures LastWins(AssignAll([], fields), fields)
  {
    forall k, v
      ensures Sorted(AssignAll([], fields)) && (Get(AssignAll([], fields), k) == Some(v) <==> LastField(fields, k, v))
    {
      AssignedLast([], fields, k, v);
    }
    AssignedLast([], fields, "", "");
  }

  /** A text with these words, queries and headers is read as just these; of two with the same name the last one stays. */
  lemma ReadsText(word: string, verb: Method, path: string, q: seq<Entry>, http11: bool, fields: seq<Entry>)
    requires Denotes(word, verb) && ' ' !in path && '?' !in path && NoCrlf(path)
    requires (forall e :: e in q ==> QueryOk(e)) && forall e :: e in fields ==> HeaderOk(e)
    ensures var r := Deserialized(word + " " + TargetText(path, q) + " " + (if http11 then "HTTP/1.1" else "HTTP/1.0") + "\r\n"
                                  + FieldLines(fields) + "\r\n");
            r.verb == verb && r.http11 == http11 && r.path == path && LastWins(r.queries, q) && LastWins(r.headers, fields)
  {
    var version := if http11 then "HTTP/1.1" else "HTTP/1.0";
    WordsClean(word, verb, version, http11);
    HeaderTextLines(fields);
    HeadersRead(fields, []);
    TargetRead(path, q, DEFAULT.(verb := verb));
    LineRead(word, TargetText(path, q), version, FieldLines(fields) + "\r\n");
    AllAssigned(q);
    AllAssigned(fields);
    assert word + " " + TargetText(path, q) + " " + version + "\r\n" + FieldLines(fields) + "\r\n"
        == word + " " + TargetText(path, q) + " " + version + "\r\n" + (FieldLines(fields) + "\r\n");
  }

  lemma WordsClean(word: string, verb: Method, version: string, http11: bool)
    requires Denotes(word, verb) && version == if http11 then "HTTP/1.1" else "HTTP/1.0"
    ensures ' ' !in word && NoCrlf(word) && NoCrlf(version) && MethodOf(word, GET) == verb && VersionOf(version, true) == http11
  {
    ShortIsClean(word);
    ShortIsClean(version);
  }

  lemma TargetRead(path: string, q: seq<Entry>, r: Request)
    requires ' ' !in path && '?' !in path && NoCrlf(path) && r.queries == [] && forall e :: e in q ==> QueryOk(e)
    ensures ' ' !in TargetText(path, q) && NoCrlf(TargetText(path, q))
    ensures ParsedTarget(TargetText(path, q), r) == r.(path := path, queries := AssignAll([], q))
  {
    QueryTextJoined(q);
    QueryTextClean(q);
    TargetClean(path, QueryText(q));
    TargetParsed(path, QueryText(q), r);
    QueriesRead(q, []);
  }
}
