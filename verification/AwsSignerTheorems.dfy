/** What signing again gives: src/cloud/aws.cpp, src/cloud/aws_signer.cpp. */
module AwsSignerTheorems {
  import opened Options
  import opened Texts
  import opened Dictionary
  import opened HttpRequest
  import opened HttpRequestRoundTrip
  import opened UrlEncoding
  import opened AwsSigner

  // ---------------------------------------------------------------------------------------------
  // What the texts must be like
  // ---------------------------------------------------------------------------------------------

  /** Can stand as the value of a header: no line end, no space in front. */
  ghost predicate ValueOk(v: string) {
    NoCrlf(v) && (v == "" || v[0] != ' ')
  }

  /** Host name, credentials, clock and the texts of hash functions have no line ends and no space in front. */
  ghost predicate Signable(c: Crypto, a: Account, now: string) {
    && ValueOk(a.address) && ValueOk(a.token) && ValueOk(now) && NoCrlf(a.keyId) && NoCrlf(a.region)
    && (forall s :: ValueOk(c.sha256(s))) && (forall s :: ValueOk(c.base64(s)))
  }

  /** The request of a caller: a target without delimiters, and headers for range and length only. */
  ghost predicate Callable(r: Request) {
    && ' ' !in r.path && '?' !in r.path && NoCrlf(r.path)
    && Sorted(r.queries) && QueryBytes(r.queries)
    && HeadersOk(r.headers) && forall e :: e in r.headers ==> e.0 == "Range" || e.0 == "Content-Length"
  }

  ghost predicate HeadersOk(h: seq<Entry>) {
    Sorted(h) && forall e :: e in h ==> HeaderOk(e)
  }

  ghost predicate QueriesUnreserved(q: seq<Entry>) {
    forall e :: e in q ==> AllUnreserved(e.0) && AllUnreserved(e.1)
  }

  // ---------------------------------------------------------------------------------------------
  // Headers
  // ---------------------------------------------------------------------------------------------

  lemma NameOk(k: string)
    requires ':' !in k && '\r' !in k
    ensures forall v :: ValueOk(v) ==> HeaderOk((k, v))
  {
    ShortIsClean(k);
  }

  lemma EmplaceOk(h: seq<Entry>, k: string, v: string)
    requires HeadersOk(h) && ':' !in k && '\r' !in k && ValueOk(v)
    ensures HeadersOk(Emplace(h, k, v))
  {
    EmplaceGet(h, k, v, k);
    NameOk(k);
  }

  /** A header that a caller may not set does not change those that are kept. */
  lemma {:induction false} EmplaceKept(h: seq<Entry>, k: string, v: string)
    requires !CallerHeader(k)
    ensures KeptHeaders(Emplace(h, k, v)) == KeptHeaders(h)
  {
    if h != [] {
      EmplaceKept(h[1..], k, v);
      KeptFront(h[0], Emplace(h[1..], k, v));
      KeptFront((k, v), h);
    }
  }

  lemma KeptFront(e: Entry, h: seq<Entry>)
    ensures KeptHeaders([e] + h) == (if CallerHeader(e.0) then [e] else []) + KeptHeaders(h)
  {
    assert ([e] + h)[1..] == h;
  }

  lemma {:induction false} AllKept(h: seq<Entry>)
    requires forall e :: e in h ==> CallerHeader(e.0)
    ensures KeptHeaders(h) == h
  {
    if h != [] {
      assert h[0] in h && forall e :: e in h[1..] ==> e in h;
      AllKept(h[1..]);
    }
  }

  /** A header name that the signer sets. */
  predicate SignerHeader(k: string) {
    !CallerHeader(k) && ':' !in k && '\r' !in k
  }

  lemma SignerHeaders()
    ensures SignerHeader("Host") && SignerHeader(AMZ_DATE)
  {
  }

  lemma TokenHeader()
    ensures SignerHeader("x-amz-s3session-token")
  {
  }

  lemma PayerHeaders()
    ensures SignerHeader("x-amz-request-payer") && SignerHeader("x-amz-security-token")
  {
  }

  lemma HashHeader()
    ensures SignerHeader("x-amz-content-sha256")
  {
  }

  lemma DigestHeader()
    ensures SignerHeader("Content-MD5")
  {
  }

  lemma Added(h: seq<Entry>, k: string, v: string)
    requires HeadersOk(h) && SignerHeader(k) && ValueOk(v)
    ensures HeadersOk(Emplace(h, k, v)) && KeptHeaders(Emplace(h, k, v)) == KeptHeaders(h)
  {
    EmplaceOk(h, k, v);
    EmplaceKept(h, k, v);
  }

  lemma InitialOk(c: Crypto, a: Account, now: string, h: seq<Entry>)
    requires Signable(c, a, now) && HeadersOk(h)
    ensures HeadersOk(InitialHeaders(a, now, h)) && KeptHeaders(InitialHeaders(a, now, h)) == KeptHeaders(h)
  {
    SignerHeaders();
    AddedTwice(h, "Host", a.address, AMZ_DATE, now);
    var dated := Emplace(Emplace(h, "Host", a.address), AMZ_DATE, now);
    if a.zonal {
      TokenHeader();
      Added(dated, "x-amz-s3session-token", a.token);
    } else {
      PayerHeaders();
      ShortIsClean("requester");
      AddedTwice(dated, "x-amz-request-payer", "requester", "x-amz-security-token", a.token);
    }
  }

  lemma AddedTwice(h: seq<Entry>, k: string, v: string, k': string, v': string)
    requires HeadersOk(h) && SignerHeader(k) && ValueOk(v) && SignerHeader(k') && ValueOk(v')
    ensures var one := Emplace(h, k, v);
            && HeadersOk(one) && KeptHeaders(one) == KeptHeaders(h)
            && HeadersOk(Emplace(one, k', v')) && KeptHeaders(Emplace(one, k', v')) == KeptHeaders(h)
  {
    Added(h, k, v);
    Added(Emplace(h, k, v), k', v');
  }

  lemma BodyOk(c: Crypto, a: Account, now: string, verb: Method, body: string, h: seq<Entry>)
    requires Signable(c, a, now) && HeadersOk(h)
    ensures HeadersOk(BodyHeaders(c, verb, body, h)) && KeptHeaders(BodyHeaders(c, verb, body, h)) == KeptHeaders(h)
  {
    HashHeader();
    DigestHeader();
    ShortIsClean("UNSIGNED-PAYLOAD");
    AddedTwice(h, "x-amz-content-sha256", PayloadHash(c, body), "Content-MD5", c.base64(c.md5(body)));
  }

  // ---------------------------------------------------------------------------------------------
  // The authorization
  // ---------------------------------------------------------------------------------------------

  /** Texts joined by a separator that is neither empty nor part of a line end. */
  lemma Joined(a: string, separator: string, b: string)
    requires NoCrlf(a) && NoCrlf(b) && separator != "" && '\r' !in separator && '\n' !in separator
    ensures NoCrlf(a + separator + b)
  {
    ShortIsClean(separator);
    NoCrlfJoin(a, separator);
    NoCrlfJoin(a + separator, b);
  }

  lemma PrefixClean(s: string, n: nat)
    requires NoCrlf(s) && n <= |s|
    ensures NoCrlf(s[..n])
  {
    forall j: nat
      ensures !OccursAt(s[..n], CRLF, j)
    {
      CrlfChars(s, j);
      CrlfChars(s[..n], j);
    }
  }

  lemma LowerClean(s: string)
    requires NoCrlf(s)
    ensures NoCrlf(LowerText(s))
  {
    forall j: nat
      ensures !OccursAt(LowerText(s), CRLF, j)
    {
      CrlfChars(s, j);
      CrlfChars(LowerText(s), j);
    }
  }

  lemma {:induction false} NamesClean(sorted: seq<Entry>)
    requires forall e :: e in sorted ==> NoCrlf(e.0)
    ensures NoCrlf(NameList(sorted))
  {
    if sorted == [] {
      ShortIsClean("");
    } else {
      assert sorted[0] in sorted && forall e :: e in sorted[1..] ==> e in sorted;
      NamesClean(sorted[1..]);
      if |sorted| > 1 {
        Joined(sorted[0].0, ";", NameList(sorted[1..]));
        assert sorted[0].0 + ";" + NameList(sorted[1..]) == sorted[0].0 + (";" + NameList(sorted[1..]));
      } else {
        assert NameList(sorted) == sorted[0].0;
      }
    }
  }

  lemma {:induction false} LowerHeadersClean(h: seq<Entry>, sorted: seq<Entry>)
    requires Sorted(sorted) && (forall e :: e in h ==> NoCrlf(e.0)) && (forall e :: e in sorted ==> NoCrlf(e.0))
    ensures forall e :: e in LowerHeaders(h, sorted) ==> NoCrlf(e.0)
    decreases |h|
  {
    if h != [] {
      assert h[0] in h && forall e :: e in h[1..] ==> e in h;
      LowerClean(h[0].0);
      EmplaceGet(sorted, LowerText(h[0].0), h[0].1, "");
      LowerHeadersClean(h[1..], Emplace(sorted, LowerText(h[0].0), h[0].1));
    }
  }

  lemma {:induction false} HexClean(s: seq<byte>)
    ensures '\r' !in HexText(s)
  {
    if s != [] { HexClean(s[1..]); }
  }

  lemma AuthorizationOk(a: Account, date: string, names: string, signature: string)
    requires NoCrlf(a.keyId) && NoCrlf(a.region) && NoCrlf(date) && NoCrlf(names) && '\r' !in signature
    ensures ValueOk(Authorization(a, date, names, signature))
  {
    AuthorizationWords();
    ShortIsClean(signature);
    PrefixClean(date, |Day(date)|);
    assert date[..|Day(date)|] == Day(date);
    AuthorizationClean("AWS4-HMAC-SHA256" + " Credential=", a.keyId, Day(date), a.region, SERVICE, KEY_REQUEST,
                       ", SignedHeaders=", names, ", Signature=", signature);
  }

  /** A text that can stand between two others. */
  predicate Joint(s: string) {
    s != "" && '\r' !in s && '\n' !in s
  }

  lemma AuthorizationWords()
    ensures var start := "AWS4-HMAC-SHA256" + " Credential=";
            NoCrlf(start) && start != "" && start[0] != ' ' && start[|start| - 1] != '\r'
    ensures NoCrlf(SERVICE) && NoCrlf(KEY_REQUEST) && Joint(", SignedHeaders=") && Joint(", Signature=")
  {
    ShortIsClean("AWS4-HMAC-SHA256" + " Credential=");
    ShortIsClean(SERVICE);
    ShortIsClean(KEY_REQUEST);
  }

  lemma AuthorizationClean(start: string, id: string, day: string, region: string, service: string, end: string,
                           namesAre: string, names: string, signatureIs: string, signature: string)
    requires start != "" && start[0] != ' ' && start[|start| - 1] != '\r'
    requires NoCrlf(start) && NoCrlf(id) && NoCrlf(day) && NoCrlf(region) && NoCrlf(service) && NoCrlf(end)
    requires NoCrlf(names) && NoCrlf(signature) && Joint(namesAre) && Joint(signatureIs)
    ensures ValueOk(start + id + "/" + day + "/" + region + "/" + service + "/" + end + namesAre + names + signatureIs + signature)
  {
    NoCrlfJoin(start, id);
    ScopeClean(start + id, day, region, service, end);
    var scope := start + id + "/" + day + "/" + region + "/" + service + "/" + end;
    Joined(scope, namesAre, names);
    Joined(scope + namesAre + names, signatureIs, signature);
    assert scope[0] == start[0];
  }

  lemma ScopeClean(id: string, day: string, region: string, service: string, end: string)
    requires NoCrlf(id) && NoCrlf(day) && NoCrlf(region) && NoCrlf(service) && NoCrlf(end)
    ensures NoCrlf(id + "/" + day + "/" + region + "/" + service + "/" + end)
  {
    Joined(id, "/", day);
    Joined(id + "/" + day, "/", region);
    Joined(id + "/" + day + "/" + region, "/", service);
    Joined(id + "/" + day + "/" + region + "/" + service, "/", end);
  }

  // ---------------------------------------------------------------------------------------------
  // The request sent
  // ---------------------------------------------------------------------------------------------

  lemma DateIsThere(c: Crypto, a: Account, now: string, verb: Method, h: seq<Entry>, body: string)
    requires Signable(c, a, now) && HeadersOk(h)
    ensures HeadersOk(Prepared(c, a, now, verb, h, body)) && KeptHeaders(Prepared(c, a, now, verb, h, body)) == KeptHeaders(h)
    ensures Get(Prepared(c, a, now, verb, h, body), AMZ_DATE).Some?
  {
    InitialOk(c, a, now, h);
    BodyOk(c, a, now, verb, body, InitialHeaders(a, now, h));
    InitialDate(c, a, now, h);
    var initial := InitialHeaders(a, now, h);
    EmplaceGet(initial, "x-amz-content-sha256", PayloadHash(c, body), AMZ_DATE);
    EmplaceGet(Emplace(initial, "x-amz-content-sha256", PayloadHash(c, body)), "Content-MD5", c.base64(c.md5(body)), AMZ_DATE);
  }

  lemma InitialDate(c: Crypto, a: Account, now: string, h: seq<Entry>)
    requires Signable(c, a, now) && HeadersOk(h)
    ensures Get(InitialHeaders(a, now, h), AMZ_DATE).Some?
  {
    EmplaceOk(h, "Host", a.address);
    var hosted := Emplace(h, "Host", a.address);
    EmplaceGet(hosted, AMZ_DATE, now, AMZ_DATE);
    DateStays(a, Emplace(hosted, AMZ_DATE, now));
  }

  lemma DateStays(a: Account, dated: seq<Entry>)
    requires Sorted(dated) && Get(dated, AMZ_DATE).Some?
    ensures Get(Emplace(dated, "x-amz-s3session-token", a.token), AMZ_DATE).Some?
    ensures Get(Emplace(dated, "x-amz-request-payer", "requester"), AMZ_DATE).Some?
    ensures Get(Emplace(Emplace(dated, "x-amz-request-payer", "requester"), "x-amz-security-token", a.token), AMZ_DATE).Some?
  {
    EmplaceGet(dated, "x-amz-s3session-token", a.token, AMZ_DATE);
    EmplaceGet(dated, "x-amz-request-payer", "requester", AMZ_DATE);
    EmplaceGet(Emplace(dated, "x-amz-request-payer", "requester"), "x-amz-security-token", a.token, AMZ_DATE);
  }

  /** The headers sent are clean, and contain the caller's. */
  lemma SentHeaders(c: Crypto, a: Account, now: string, verb: Method, uri: string, query: string, h: seq<Entry>, body: string)
    returns (headers: seq<Entry>)
    requires Signable(c, a, now) && HeadersOk(h)
    ensures HeadersOk(headers) && KeptHeaders(headers) == KeptHeaders(h)
    ensures forall http11 :: Built(c, a, now, verb, http11, uri, query, h, body) == Some(RequestText(verb, uri, query, http11, headers))
  {
    var prepared := Prepared(c, a, now, verb, h, body);
    DateIsThere(c, a, now, verb, h, body);
    var date := Get(prepared, AMZ_DATE).value;
    GetIs(prepared, AMZ_DATE);
    assert HeaderOk((AMZ_DATE, date));
    headers := SignedHeaders(c, a, date, verb, uri, query, prepared, body);
    SignedOk(c, a, date, verb, uri, query, prepared, body);
  }

  lemma SignedOk(c: Crypto, a: Account, date: string, verb: Method, uri: string, query: string, h: seq<Entry>, body: string)
    requires HeadersOk(h) && NoCrlf(date) && NoCrlf(a.keyId) && NoCrlf(a.region)
    ensures HeadersOk(SignedHeaders(c, a, date, verb, uri, query, h, body))
    ensures KeptHeaders(SignedHeaders(c, a, date, verb, uri, query, h, body)) == KeptHeaders(h)
  {
    var sorted := LowerHeaders(h, []);
    var sha := c.sha256(CanonicalRequest(verb, uri, query, sorted, PayloadHash(c, body)));
    LowerHeadersClean(h, []);
    NamesClean(sorted);
    SignatureClean(c, a, date, sha);
    AuthorizationOk(a, date, NameList(sorted), Signature(c, a, date, sha));
    Added(h, "Authorization", Authorization(a, date, NameList(sorted), Signature(c, a, date, sha)));
  }

  lemma SignatureClean(c: Crypto, a: Account, date: string, sha: string)
    ensures '\r' !in Signature(c, a, date, sha)
  {
    var key := c.hmac(c.hmac(c.hmac(c.hmac("AWS4" + a.secret, Day(date)), a.region), SERVICE), KEY_REQUEST);
    HexClean(c.hmac(key, StringToSign(date, a.region, sha)));
  }

  // ---------------------------------------------------------------------------------------------
  // Queries that were encoded
  // ---------------------------------------------------------------------------------------------

  lemma EncodedIsClean(s: string)
    requires Bytes(s)
    ensures var e := Encode(s);
            Bytes(e) && '=' !in e && '&' !in e && ' ' !in e && '?' !in e && NoCrlf(e)
  {
    EncodedChars(s);
    ShortIsClean(Encode(s));
  }

  lemma {:induction false} EncodedEntriesOk(q: seq<Entry>)
    requires QueryBytes(q)
    ensures QueryBytes(Encoded(q)) && forall e :: e in Encoded(q) ==> QueryOk(e)
  {
    if q != [] {
      assert q[0] in q && forall e :: e in q[1..] ==> e in q;
      EncodedEntriesOk(q[1..]);
      EncodedIsClean(q[0].0);
      EncodedIsClean(q[0].1);
    }
  }

  lemma {:induction false} UnreservedStay(q: seq<Entry>)
    requires QueryBytes(q) && QueriesUnreserved(q)
    ensures Encoded(q) == q
  {
    if q != [] {
      assert q[0] in q && forall e :: e in q[1..] ==> e in q;
      UnreservedStay(q[1..]);
      EncodeLength(q[0].0);
      EncodeLength(q[0].1);
    }
  }

  // The length of an encoded query text tells whether encoding it again changes it.

  function Weight(q: seq<Entry>): nat
    requires QueryBytes(q)
  {
    if q == [] then 0
    else
      assert q[0] in q && forall e :: e in q[1..] ==> e in q;
      |Encode(q[0].0)| + |Encode(q[0].1)| + 2 + Weight(q[1..])
  }

  lemma {:induction false} QueryLength(q: seq<Entry>)
    requires QueryBytes(q)
    ensures |EncodedQuery(q)| == if q == [] then 0 else Weight(q) - 1
  {
    if q != [] {
      assert q[0] in q && forall e :: e in q[1..] ==> e in q;
      EncodedFirst(q);
      QueryLength(q[1..]);
    }
  }

  lemma {:induction false} EncodedWeight(q: seq<Entry>)
    requires QueryBytes(q)
    ensures QueryBytes(Encoded(q)) && Weight(Encoded(q)) >= Weight(q)
    ensures Weight(Encoded(q)) == Weight(q) <==> QueriesUnreserved(q)
  {
    if q != [] {
      assert q[0] in q && forall e :: e in q[1..] ==> e in q;
      assert forall e :: e in q <==> e == q[0] || e in q[1..];
      EncodedEntriesOk(q);
      EncodedWeight(q[1..]);
      EncodeTwice(q[0].0);
      EncodeTwice(q[0].1);
      assert Encoded(q)[1..] == Encoded(q[1..]);
    }
  }

  ghost predicate HasKey(d: seq<Entry>, k: string) {
    exists i :: 0 <= i < |d| && d[i].0 == k
  }

  lemma {:induction false} AssignNew(d: seq<Entry>, k: string, v: string, x: string)
    requires !HasKey(d, k) && QueryBytes(d) && Bytes(k) && Bytes(v)
    ensures QueryBytes(Assign(d, k, v)) && Weight(Assign(d, k, v)) == Weight(d) + |Encode(k)| + |Encode(v)| + 2
    ensures HasKey(Assign(d, k, v), x) ==> HasKey(d, x) || x == k
  {
    if d == [] {
      InFront((k, v), [], x);
      assert [(k, v)] + [] == [(k, v)];
    } else if Less(k, d[0].0) {
      assert k != d[0].0;
      InFront((k, v), d, x);
    } else {
      assert d[0] in d && k != d[0].0 && d == [d[0]] + d[1..];
      InFront(d[0], d[1..], k);
      InFront(d[0], d[1..], x);
      AssignNew(d[1..], k, v, x);
      InFront(d[0], Assign(d[1..], k, v), x);
    }
  }

  /** One more entry at the front. */
  lemma InFront(e: Entry, d: seq<Entry>, x: string)
    ensures QueryBytes([e] + d) <==> Bytes(e.0) && Bytes(e.1) && QueryBytes(d)
    ensures QueryBytes([e] + d) ==> Weight([e] + d) == |Encode(e.0)| + |Encode(e.1)| + 2 + Weight(d)
    ensures HasKey([e] + d, x) <==> e.0 == x || HasKey(d, x)
  {
    var more := [e] + d;
    assert more[0] == e && more[1..] == d;
    assert forall i :: 0 <= i < |d| ==> d[i] == more[i + 1];
    assert forall y :: y in more <==> y == e || y in d;
  }

  ghost predicate KeysApart(q: seq<Entry>) {
    forall i, j :: 0 <= i < j < |q| ==> q[i].0 != q[j].0
  }

  lemma {:induction false} AssignAllWeight(q: seq<Entry>, done: seq<Entry>)
    requires QueryBytes(q) && QueryBytes(done) && KeysApart(q) && forall e :: e in q ==> !HasKey(done, e.0)
    ensures QueryBytes(AssignAll(done, q)) && Weight(AssignAll(done, q)) == Weight(done) + Weight(q)
    ensures q != [] || done != [] ==> AssignAll(done, q) != []
    decreases |q|
  {
    if q != [] {
      assert q[0] in q && forall e :: e in q[1..] ==> e in q;
      AssignNew(done, q[0].0, q[0].1, "");
      var more := Assign(done, q[0].0, q[0].1);
      forall e | e in q[1..]
        ensures !HasKey(more, e.0)
      {
        AssignNew(done, q[0].0, q[0].1, e.0);
        assert e.0 != q[0].0 by {
          var i :| 0 <= i < |q[1..]| && q[1..][i] == e;
          assert q[i + 1] == e;
        }
      }
      AssignAllWeight(q[1..], more);
    }
  }

  lemma SortedApart(q: seq<Entry>)
    requires Sorted(q)
    ensures KeysApart(q)
  {
    forall i, j | 0 <= i < j < |q|
      ensures q[i].0 != q[j].0
    {
      LessIrreflexive(q[i].0);
    }
  }

  lemma {:induction false} EncodedAtIndex(q: seq<Entry>, i: nat)
    requires QueryBytes(q) && i < |q|
    ensures |Encoded(q)| == |q| && q[i] in q && Encoded(q)[i] == (Encode(q[i].0), Encode(q[i].1))
  {
    assert q[0] in q && forall e :: e in q[1..] ==> e in q;
    EncodedSize(q);
    if i > 0 { EncodedAtIndex(q[1..], i - 1); }
  }

  lemma EncodedApart(q: seq<Entry>)
    requires QueryBytes(q) && KeysApart(q)
    ensures KeysApart(Encoded(q))
  {
    EncodedSize(q);
    forall i, j | 0 <= i < j < |q|
      ensures Encoded(q)[i].0 != Encoded(q)[j].0
    {
      EncodedAtIndex(q, i);
      EncodedAtIndex(q, j);
      DecodeEncode(q[i].0);
      DecodeEncode(q[j].0);
    }
  }

  /** What is parsed from an encoded query text, encoded again, is the same text exactly when the queries are unreserved;
      otherwise it is longer. */
  lemma QueryAgain(q: seq<Entry>)
    requires QueryBytes(q) && Sorted(q)
    ensures var back := AssignAll([], Encoded(q));
            && QueryBytes(back)
            && |EncodedQuery(back)| >= |EncodedQuery(q)|
            && (|EncodedQuery(back)| == |EncodedQuery(q)| <==> QueriesUnreserved(q))
            && (QueriesUnreserved(q) ==> EncodedQuery(back) == EncodedQuery(q))
  {
    var e, back := Encoded(q), AssignAll([], Encoded(q));
    EncodedEntriesOk(q);
    SortedApart(q);
    EncodedApart(q);
    AssignAllWeight(e, []);
    EncodedWeight(q);
    QueryLength(q);
    QueryLength(back);
    EncodedSize(q);
    if QueriesUnreserved(q) {
      UnreservedStay(q);
      AssignAllSorted(q, []);
      assert [] + q == q;
    }
  }

  // ---------------------------------------------------------------------------------------------
  // Signing again
  // ---------------------------------------------------------------------------------------------

  /** The text sent is parsed as the request that was made, with the queries as they were encoded and all headers. */
  lemma SentParsed(verb: Method, uri: string, q: seq<Entry>, http11: bool, headers: seq<Entry>)
    requires ' ' !in uri && '?' !in uri && NoCrlf(uri) && QueryBytes(q) && HeadersOk(headers)
    ensures Deserialized(RequestText(verb, uri, EncodedQuery(q), http11, headers)) ==
            Request(AssignAll([], Encoded(q)), headers, verb, http11, uri)
  {
    EncodedEntriesOk(q);
    QueryTextClean(Encoded(q));
    TargetClean(uri, EncodedQuery(q));
    TextParsed(verb, uri + "?" + EncodedQuery(q), http11, headers);
    TargetParsed(uri, EncodedQuery(q), DEFAULT.(verb := verb));
    QueriesRead(Encoded(q), []);
  }

  /** Two requests that differ in the length of the query have different texts. */
  lemma TextsApart(verb: Method, uri: string, query: string, other: string, http11: bool, h: seq<Entry>, g: seq<Entry>)
    requires ' ' !in uri && NoCrlf(uri) && ' ' !in query && NoCrlf(query) && ' ' !in other && NoCrlf(other)
    requires |query| != |other|
    ensures RequestText(verb, uri, query, http11, h) != RequestText(verb, uri, other, http11, g)
  {
    FirstLine(verb, uri, query, http11, h);
    FirstLine(verb, uri, other, http11, g);
  }

  lemma FirstLine(verb: Method, uri: string, query: string, http11: bool, h: seq<Entry>)
    requires ' ' !in uri && NoCrlf(uri) && ' ' !in query && NoCrlf(query)
    ensures Find(RequestText(verb, uri, query, http11, h), CRLF) ==
            Some(|MethodText(verb)| + |TypeText(http11)| + |uri| + |query| + 3)
  {
    TargetClean(uri, query);
    LineClean(verb, uri + "?" + query, http11);
    LineEndsIn(RequestLine(verb, uri + "?" + query, http11), HeaderText(h));
    LineSize(verb, uri + "?" + query, http11);
  }

  lemma LineEndsIn(line: string, rest: string)
    requires NoCrlf(line)
    ensures Find(line + CRLF + rest + CRLF, CRLF) == Some(|line|)
  {
    LineEnds(line, rest + CRLF);
    assert line + CRLF + rest + CRLF == line + CRLF + (rest + CRLF);
  }

  lemma LineSize(verb: Method, target: string, http11: bool)
    ensures |RequestLine(verb, target, http11)| == |MethodText(verb)| + |TypeText(http11)| + |target| + 2
  {
  }

  lemma PathClean(path: string)
    requires ' ' !in path && '?' !in path && NoCrlf(path)
    ensures var uri := PathOrRoot(path); ' ' !in uri && '?' !in uri && NoCrlf(uri) && PathOrRoot(uri) == uri
  {
    ShortIsClean("/");
  }

  /** Signing a request again, with the same clock and credentials, gives the same text exactly when every character of
      its queries is unreserved; a reserved one is encoded twice. */
  lemma ResignFixedPoint(c: Crypto, a: Account, now: string, r: Request, body: string)
    requires Signable(c, a, now) && Callable(r)
    ensures var built := BuiltRequest(c, a, now, r, body);
            && built.Some?
            && (Resigned(c, a, now, built.value, body) == built <==> QueriesUnreserved(r.queries))
  {
    var uri, query := PathOrRoot(r.path), EncodedQuery(r.queries);
    PathClean(r.path);
    var headers := SentHeaders(c, a, now, r.verb, uri, query, r.headers, body);
    AllKept(r.headers);
    SentParsed(r.verb, uri, r.queries, r.http11, headers);
    var back := AssignAll([], Encoded(r.queries));
    QueryAgain(r.queries);
    assert Resigned(c, a, now, RequestText(r.verb, uri, query, r.http11, headers), body) ==
           Built(c, a, now, r.verb, r.http11, uri, EncodedQuery(back), r.headers, body);
    if !QueriesUnreserved(r.queries) {
      var other := SentHeaders(c, a, now, r.verb, uri, EncodedQuery(back), r.headers, body);
      QueryIsClean(r.queries);
      QueryIsClean(back);
      TextsApart(r.verb, uri, query, EncodedQuery(back), r.http11, headers, other);
    }
  }

  /** What the receiver reads from the request and from the one signed again: the queries encoded once, and twice. */
  lemma EncodedOnceAndTwice(c: Crypto, a: Account, now: string, r: Request, body: string)
    requires Signable(c, a, now) && Callable(r)
    ensures var once, built := AssignAll([], Encoded(r.queries)), BuiltRequest(c, a, now, r, body);
            && QueryBytes(once) && built.Some? && Deserialized(built.value).queries == once
            && var again := Resigned(c, a, now, built.value, body);
               again.Some? && Deserialized(again.value).queries == AssignAll([], Encoded(once))
  {
    var uri, query := PathOrRoot(r.path), EncodedQuery(r.queries);
    PathClean(r.path);
    var headers := SentHeaders(c, a, now, r.verb, uri, query, r.headers, body);
    AllKept(r.headers);
    SentParsed(r.verb, uri, r.queries, r.http11, headers);
    QueryAgain(r.queries);
    var once := AssignAll([], Encoded(r.queries));
    var other := SentHeaders(c, a, now, r.verb, uri, EncodedQuery(once), r.headers, body);
    SentParsed(r.verb, uri, once, r.http11, other);
  }

  lemma OneQuery(k: string, v: string)
    requires Bytes(k) && Bytes(v)
    ensures QueryBytes([(k, v)]) && AssignAll([], Encoded([(k, v)])) == [(Encode(k), Encode(v))]
  {
    assert [(k, v)][1..] == [];
    var e := [(Encode(k), Encode(v))];
    assert Encoded([(k, v)]) == e + Encoded([]) == e;
    assert e[1..] == [] && AssignAll(Assign([], e[0].0, e[0].1), []) == e;
  }

  /** A request that signing again changes: the slash in a query is encoded, and then its percent sign. */
  lemma SlashChanges(c: Crypto, a: Account, now: string, r: Request, body: string)
    requires Signable(c, a, now) && HasSlash(r)
    ensures Callable(r)
    ensures var built := BuiltRequest(c, a, now, r, body);
            && built.Some? && Deserialized(built.value).queries == [("prefix", "a%2Fb")]
            && var again := Resigned(c, a, now, built.value, body);
               again != built && again.Some? && Deserialized(again.value).queries == [("prefix", "a%252Fb")]
  {
    SlashCallable(r);
    ResignFixedPoint(c, a, now, r, body);
    EncodedOnceAndTwice(c, a, now, r, body);
    SlashTwice(r.queries[0].0, r.queries[0].1);
  }

  lemma PrefixStays(k: string)
    requires k == "prefix"
    ensures Bytes(k) && Encode(k) == k
  {
    EncodeLength(k);
  }

  lemma SlashTwice(k: string, v: string)
    requires k == "prefix" && v == "a/b"
    ensures QueryBytes([(k, v)])
    ensures var once := AssignAll([], Encoded([(k, v)]));
            && once == [(k, "a%2Fb")] && QueryBytes(once) && AssignAll([], Encoded(once)) == [(k, "a%252Fb")]
  {
    PrefixStays(k);
    OneQuery(k, v);
    SlashEncoded();
    PercentEncoded();
    OneQuery(k, Encode(v));
  }

  ghost predicate HasSlash(r: Request) {
    r.queries == [("prefix", "a/b")] && r.headers == [] && r.path == "/bucket"
  }

  lemma SlashCallable(r: Request)
    requires HasSlash(r)
    ensures Callable(r) && !QueriesUnreserved(r.queries)
  {
    ShortIsClean(r.path);
    SlashReserved("a/b");
    assert r.queries[0] in r.queries;
  }

  lemma SlashReserved(s: string)
    requires s == "a/b"
    ensures !AllUnreserved(s)
  {
    assert s[1] == '/';
  }

  lemma SlashEncoded()
    ensures Encode("a/b") == "a%2Fb"
  {
    EncodeFront('a', "/b");
    EncodeFront('/', "b");
    EncodeFront('b', "");
  }

  lemma PercentEncoded()
    ensures Encode("a%2Fb") == "a%252Fb"
  {
    EncodeFront('a', "%2Fb");
    EncodeFront('%', "2Fb");
    EncodeFront('2', "Fb");
    EncodeFront('F', "b");
    EncodeFront('b', "");
  }

  lemma EncodeFront(x: char, rest: string)
    requires IsByte(x) && Bytes(rest)
    ensures Bytes([x] + rest) && Encode([x] + rest) == EncodeChar(x) + Encode(rest)
  {
    assert ([x] + rest)[1..] == rest;
  }

  lemma QueryIsClean(q: seq<Entry>)
    requires QueryBytes(q)
    ensures ' ' !in EncodedQuery(q) && NoCrlf(EncodedQuery(q))
  {
    EncodedEntriesOk(q);
    QueryTextClean(Encoded(q));
  }

  /** The headers that are sent sign the query text that is sent, and from that text the receiver reads the encoded queries. */
  lemma SignedIsSent(c: Crypto, a: Account, now: string, r: Request, body: string) returns (prepared: seq<Entry>, date: string)
    requires Signable(c, a, now) && Callable(r)
    ensures Get(prepared, AMZ_DATE) == Some(date) && prepared == Prepared(c, a, now, r.verb, r.headers, body)
    ensures BuiltRequest(c, a, now, r, body).Some?
    ensures Deserialized(BuiltRequest(c, a, now, r, body).value) ==
            Request(AssignAll([], Encoded(r.queries)),
                    SignedHeaders(c, a, date, r.verb, PathOrRoot(r.path), EncodedQuery(r.queries), prepared, body),
                    r.verb, r.http11, PathOrRoot(r.path))
  {
    var uri, query := PathOrRoot(r.path), EncodedQuery(r.queries);
    PathClean(r.path);
    prepared := Prepared(c, a, now, r.verb, r.headers, body);
    DateIsThere(c, a, now, r.verb, r.headers, body);
    date := Get(prepared, AMZ_DATE).value;
    GetIs(prepared, AMZ_DATE);
    assert HeaderOk((AMZ_DATE, date));
    SignedOk(c, a, date, r.verb, uri, query, prepared, body);
    SentParsed(r.verb, uri, r.queries, r.http11, SignedHeaders(c, a, date, r.verb, uri, query, prepared, body));
  }

  /** What the receiver decodes from the encoded queries are the queries of the caller. */
  lemma {:induction false} DecodedQueries(q: seq<Entry>)
    requires QueryBytes(q)
    ensures |Encoded(q)| == |q|
    ensures forall i :: 0 <= i < |q| ==> (Decode(Encoded(q)[i].0), Decode(Encoded(q)[i].1)) == q[i]
  {
    EncodedSize(q);
    forall i | 0 <= i < |q|
      ensures (Decode(Encoded(q)[i].0), Decode(Encoded(q)[i].1)) == q[i]
    {
      EncodedAtIndex(q, i);
      DecodeEncode(q[i].0);
      DecodeEncode(q[i].1);
    }
  }
}
