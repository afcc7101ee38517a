/** Signing requests with AWS Signature Version 4: src/cloud/aws.cpp, src/cloud/aws_signer.cpp.
    Hash functions, message authentication and base64 are arbitrary functions; the clock is a text. */
module AwsSigner {
  import opened Options
  import opened Dictionary
  import opened HttpRequest
  import opened UrlEncoding

  type byte = c: char | c as int < 256 witness '\0'

  datatype Crypto = Crypto(sha256: string -> string, md5: string -> string, base64: string -> string,
                           hmac: (string, string) -> seq<byte>)

  /** Endpoint and credentials; a zonal endpoint uses the session's. */
  datatype Account = Account(address: string, region: string, zonal: bool, keyId: string, secret: string, token: string)

  const HASHED_BODY_MAX := 1024
  const AMZ_DATE := "x-amz-date"
  const SERVICE := "s3"
  const KEY_REQUEST := "aws4_request"

  ghost predicate QueryBytes(q: seq<Entry>) {
    forall e :: e in q ==> Bytes(e.0) && Bytes(e.1)
  }

  // ---------------------------------------------------------------------------------------------
  // Parts
  // ---------------------------------------------------------------------------------------------

  function PathOrRoot(path: string): string {
    if path == "" then "/" else path
  }

  function Encoded(q: seq<Entry>): seq<Entry>
    requires QueryBytes(q)
  {
    if q == [] then []
    else
      assert q[0] in q && forall e :: e in q[1..] ==> e in q;
      [(Encode(q[0].0), Encode(q[0].1))] + Encoded(q[1..])
  }

  function EncodedQuery(q: seq<Entry>): string
    requires QueryBytes(q)
  {
    QueryText(Encoded(q))
  }

  function LowerHex(n: nat): char
    requires n < 16
  {
    if n < 10 then ('0' as int + n) as char else ('a' as int + n - 10) as char
  }

  /** `hexEncode`. */
  function HexText(s: seq<byte>): string {
    if s == [] then ""
    else [LowerHex(s[0] as int / 16), LowerHex(s[0] as int % 16)] + HexText(s[1..])
  }

  function Lower(c: char): char {
    if 'A' <= c <= 'Z' then (c as int + 32) as char else c
  }

  function LowerText(s: string): string {
    seq(|s|, i requires 0 <= i < |s| => Lower(s[i]))
  }

  /** The headers by their names in lower case; the first of two that differ only in case stays. */
  function LowerHeaders(h: seq<Entry>, sorted: seq<Entry>): seq<Entry> {
    if h == [] then sorted else LowerHeaders(h[1..], Emplace(sorted, LowerText(h[0].0), h[0].1))
  }

  function CanonicalHeaders(sorted: seq<Entry>): string {
    if sorted == [] then "" else sorted[0].0 + ":" + sorted[0].1 + "\n" + CanonicalHeaders(sorted[1..])
  }

  function NameList(sorted: seq<Entry>): string {
    if sorted == [] then "" else sorted[0].0 + (if |sorted| > 1 then ";" + NameList(sorted[1..]) else "")
  }

  /** Headers that `buildRequest` adds; a header of the caller stays. */
  function InitialHeaders(a: Account, date: string, h: seq<Entry>): seq<Entry> {
    var dated := Emplace(Emplace(h, "Host", a.address), AMZ_DATE, date);
    if a.zonal then Emplace(dated, "x-amz-s3session-token", a.token)
    else
      var paid := Emplace(dated, "x-amz-request-payer", "requester");
      if a.token != "" then Emplace(paid, "x-amz-security-token", a.token) else paid
  }

  function PayloadHash(c: Crypto, body: string): string {
    if |body| <= HASHED_BODY_MAX then c.sha256(body) else "UNSIGNED-PAYLOAD"
  }

  /** Headers that depend on the body. */
  function BodyHeaders(c: Crypto, verb: Method, body: string, h: seq<Entry>): seq<Entry> {
    var hashed := Emplace(h, "x-amz-content-sha256", PayloadHash(c, body));
    if |body| <= HASHED_BODY_MAX && (verb == PUT || verb == POST) then
      Emplace(hashed, "Content-MD5", c.base64(c.md5(body)))
    else hashed
  }

  /** What is hashed and signed. */
  function CanonicalRequest(verb: Method, uri: string, query: string, sorted: seq<Entry>, payloadHash: string): string {
    MethodText(verb) + "\n" + uri + "\n" + query + "\n" + CanonicalHeaders(sorted) + "\n" + NameList(sorted) + "\n" + payloadHash
  }

  function Day(date: string): string {
    if |date| < 8 then date else date[..8]
  }

  function StringToSign(date: string, region: string, requestSHA: string): string {
    "AWS4-HMAC-SHA256\n" + date + "\n" + Day(date) + "/" + region + "/" + SERVICE + "/aws4_request\n" + requestSHA
  }

  function Signature(c: Crypto, a: Account, date: string, requestSHA: string): string {
    var key := c.hmac(c.hmac(c.hmac(c.hmac("AWS4" + a.secret, Day(date)), a.region), SERVICE), KEY_REQUEST);
    HexText(c.hmac(key, StringToSign(date, a.region, requestSHA)))
  }

  function Authorization(a: Account, date: string, names: string, signature: string): string {
    "AWS4-HMAC-SHA256" + " Credential=" + a.keyId + "/" + Day(date) + "/" + a.region + "/" + SERVICE + "/" + KEY_REQUEST
    + ", SignedHeaders=" + names + ", Signature=" + signature
  }

  /** All headers of the request sent, given those to sign. */
  function SignedHeaders(c: Crypto, a: Account, date: string, verb: Method, uri: string, query: string,
                         h: seq<Entry>, body: string): seq<Entry> {
    var sorted := LowerHeaders(h, []);
    var sha := c.sha256(CanonicalRequest(verb, uri, query, sorted, PayloadHash(c, body)));
    Emplace(h, "Authorization", Authorization(a, date, NameList(sorted), Signature(c, a, date, sha)))
  }

  /** The request line and headers sent; `query` is the query text that is signed. */
  function RequestText(verb: Method, uri: string, query: string, http11: bool, headers: seq<Entry>): string {
    RequestLine(verb, uri + "?" + query, http11) + CRLF + HeaderText(headers) + CRLF
  }

  /** The headers to sign. */
  function Prepared(c: Crypto, a: Account, now: string, verb: Method, h: seq<Entry>, body: string): seq<Entry> {
    BodyHeaders(c, verb, body, InitialHeaders(a, now, h))
  }

  /** `buildRequest` at time `now`; None is the exception for a missing date. */
  function Built(c: Crypto, a: Account, now: string, verb: Method, http11: bool, uri: string, query: string,
                 h: seq<Entry>, body: string): Option<string> {
    var prepared := Prepared(c, a, now, verb, h, body);
    match Get(prepared, AMZ_DATE)
    case None => None
    case Some(date) =>
      Some(RequestText(verb, uri, query, http11, SignedHeaders(c, a, date, verb, uri, query, prepared, body)))
  }

  function BuiltRequest(c: Crypto, a: Account, now: string, r: Request, body: string): Option<string>
    requires QueryBytes(r.queries)
  {
    Built(c, a, now, r.verb, r.http11, PathOrRoot(r.path), EncodedQuery(r.queries), r.headers, body)
  }

  predicate CallerHeader(k: string) {
    k == "Range" || k == "Content-Length"
  }

  function KeptHeaders(h: seq<Entry>): seq<Entry> {
    if h == [] then [] else (if CallerHeader(h[0].0) then [h[0]] else []) + KeptHeaders(h[1..])
  }

  // ---------------------------------------------------------------------------------------------
  // The loops
  // ---------------------------------------------------------------------------------------------

  method WriteEncoded(q: seq<Entry>) returns (s: string)
    requires QueryBytes(q)
    ensures s == EncodedQuery(q)
  {
    s := "";
    var i := 0;
    assert q[0..] == q;
    while i < |q|
      invariant 0 <= i <= |q| && QueryBytes(q[i..]) && EncodedQuery(q) == s + EncodedQuery(q[i..])
    {
      EncodedAt(q, i, s);
      var key := EncodeUrlParameters(q[i].0);
      var value := EncodeUrlParameters(q[i].1);
      s := s + key + "=" + value;
      i := i + 1;
      if i < |q| {
        s := s + "&";
      }
    }
  }

  lemma EncodedAt(q: seq<Entry>, i: nat, s: string)
    requires i < |q| && QueryBytes(q[i..])
    ensures QueryBytes(q[i + 1..]) && Bytes(q[i].0) && Bytes(q[i].1)
    ensures var entry := s + Encode(q[i].0) + "=" + Encode(q[i].1);
            s + EncodedQuery(q[i..]) == (if i + 1 < |q| then entry + "&" else entry) + EncodedQuery(q[i + 1..])
  {
    var rest := q[i..];
    EncodedFirst(rest);
    assert rest[0] == q[i] && rest[1..] == q[i + 1..];
    Regrouped(s, Encode(q[i].0), "=", Encode(q[i].1), if i + 1 < |q| then "&" else "", EncodedQuery(q[i + 1..]));
  }

  lemma Regrouped(s: string, a: string, b: string, c: string, d: string, e: string)
    ensures s + (a + b + c + d + e) == (s + a + b + c + d) + e
    ensures d == "" ==> s + a + b + c + d == s + a + b + c
  {
  }

  lemma EncodedFirst(q: seq<Entry>)
    requires QueryBytes(q) && q != []
    ensures QueryBytes(q[1..]) && Bytes(q[0].0) && Bytes(q[0].1)
    ensures EncodedQuery(q) == Encode(q[0].0) + "=" + Encode(q[0].1) + (if |q| > 1 then "&" else "") + EncodedQuery(q[1..])
  {
    assert q[0] in q && forall e :: e in q[1..] ==> e in q;
    var e := Encoded(q);
    EncodedSize(q);
    assert e[1..] == Encoded(q[1..]) && e[0] == (Encode(q[0].0), Encode(q[0].1));
  }

  lemma {:induction false} EncodedSize(q: seq<Entry>)
    requires QueryBytes(q)
    ensures |Encoded(q)| == |q|
  {
    if q != [] {
      assert forall e :: e in q[1..] ==> e in q;
      EncodedSize(q[1..]);
    }
  }

  method SortByLowerName(h: seq<Entry>) returns (sorted: seq<Entry>)
    ensures sorted == LowerHeaders(h, [])
  {
    sorted := [];
    var i := 0;
    assert h[0..] == h;
    while i < |h|
      invariant 0 <= i <= |h| && LowerHeaders(h, []) == LowerHeaders(h[i..], sorted)
    {
      assert h[i..][1..] == h[i + 1..];
      sorted := Emplace(sorted, LowerText(h[i].0), h[i].1);
      i := i + 1;
    }
  }

  method WriteSorted(sorted: seq<Entry>) returns (lines: string, names: string)
    ensures lines == CanonicalHeaders(sorted) && names == NameList(sorted)
  {
    lines, names := "", "";
    var i := 0;
    assert sorted[0..] == sorted;
    while i < |sorted|
      invariant 0 <= i <= |sorted| && CanonicalHeaders(sorted) == lines + CanonicalHeaders(sorted[i..])
      invariant NameList(sorted) == names + NameList(sorted[i..])
    {
      var rest := sorted[i..];
      assert rest[0] == sorted[i] && rest[1..] == sorted[i + 1..];
      ghost var linesBefore, namesBefore := lines, names;
      lines := lines + sorted[i].0 + ":" + sorted[i].1 + "\n";
      assert lines == linesBefore + (sorted[i].0 + ":" + sorted[i].1 + "\n");
      names := names + sorted[i].0;
      i := i + 1;
      if i < |sorted| {
        names := names + ";";
      }
      assert names == namesBefore + (rest[0].0 + (if |rest| > 1 then ";" else ""));
    }
  }

  /** `encodeCanonicalRequest`: the headers of the request, and what is signed. */
  method EncodeCanonicalRequest(c: Crypto, verb: Method, path: string, queries: seq<Entry>, h: seq<Entry>, body: string)
    returns (headers: seq<Entry>, requestSHA: string, names: string)
    requires QueryBytes(queries)
    ensures headers == BodyHeaders(c, verb, body, h) && names == NameList(LowerHeaders(headers, []))
    ensures requestSHA == c.sha256(CanonicalRequest(verb, PathOrRoot(path), EncodedQuery(queries), LowerHeaders(headers, []),
                                                    PayloadHash(c, body)))
  {
    var stream := MethodText(verb) + "\n";
    if path == "" {
      stream := stream + "/" + "\n";
    } else {
      stream := stream + path + "\n";
    }
    var query := WriteEncoded(queries);
    stream := stream + query + "\n";
    headers := h;
    var payloadHash;
    if |body| <= HASHED_BODY_MAX {
      payloadHash := c.sha256(body);
      headers := Emplace(headers, "x-amz-content-sha256", payloadHash);
      if verb == PUT || verb == POST {
        headers := Emplace(headers, "Content-MD5", c.base64(c.md5(body)));
      }
    } else {
      payloadHash := "UNSIGNED-PAYLOAD";
      headers := Emplace(headers, "x-amz-content-sha256", payloadHash);
    }
    var sorted := SortByLowerName(headers);
    var lines;
    lines, names := WriteSorted(sorted);
    stream := stream + lines + "\n" + names + "\n" + payloadHash;
    requestSHA := c.sha256(stream);
  }

  method HexEncode(input: seq<byte>) returns (s: string)
    ensures s == HexText(input)
  {
    s := "";
    var i := 0;
    assert input[0..] == input;
    while i < |input|
      invariant 0 <= i <= |input| && HexText(input) == s + HexText(input[i..])
    {
      assert input[i..][1..] == input[i + 1..];
      s := s + [LowerHex(input[i] as int / 16), LowerHex(input[i] as int % 16)];
      i := i + 1;
    }
  }

  /** `createSignedRequest`: the target of the request line, and the headers with the authorization. */
  method CreateSignedRequest(c: Crypto, a: Account, path: string, queries: seq<Entry>, headers: seq<Entry>,
                             requestSHA: string, names: string) returns (target: Option<string>, signed: seq<Entry>)
    requires QueryBytes(queries)
    ensures match Get(headers, AMZ_DATE)
            case None => target.None? && signed == headers
            case Some(date) =>
              && target == Some(PathOrRoot(path) + "?" + EncodedQuery(queries))
              && signed == Emplace(headers, "Authorization", Authorization(a, date, names, Signature(c, a, date, requestSHA)))
  {
    signed := headers;
    var found := Get(headers, AMZ_DATE);
    if found.None? {
      return None, signed;
    }
    var date := found.value;
    var key := c.hmac("AWS4" + a.secret, Day(date));
    key := c.hmac(key, a.region);
    key := c.hmac(key, SERVICE);
    key := c.hmac(key, KEY_REQUEST);
    key := c.hmac(key, StringToSign(date, a.region, requestSHA));
    var signature := HexEncode(key);
    signed := Emplace(signed, "Authorization", Authorization(a, date, names, signature));
    var query := WriteEncoded(queries);
    target := Some(PathOrRoot(path) + "?" + query);
  }

  /** `buildRequest`. */
  method BuildRequest(c: Crypto, a: Account, now: string, r: Request, body: string) returns (text: Option<string>)
    requires QueryBytes(r.queries)
    ensures text == BuiltRequest(c, a, now, r, body)
  {
    var headers := InitialHeaders(a, now, r.headers);
    var requestSHA, names, target;
    headers, requestSHA, names := EncodeCanonicalRequest(c, r.verb, r.path, r.queries, headers, body);
    target, headers := CreateSignedRequest(c, a, r.path, r.queries, headers, requestSHA, names);
    if target.None? {
      return None;
    }
    var lines := WriteHeaders(headers);
    text := Some(RequestLine(r.verb, target.value, r.http11) + CRLF + lines + CRLF);
  }

  method EraseHeaders(h: seq<Entry>) returns (kept: seq<Entry>)
    ensures kept == KeptHeaders(h)
  {
    kept := h;
    var i := 0;
    while i < |kept|
      invariant 0 <= i <= |kept| && KeptHeaders(h) == kept[..i] + KeptHeaders(kept[i..])
      decreases |kept| - i
    {
      ghost var before := kept;
      assert before[i..][1..] == before[i + 1..];
      if !CallerHeader(kept[i].0) {
        kept := kept[..i] + kept[i + 1..];
        assert kept[..i] == before[..i] && kept[i..] == before[i + 1..];
      } else {
        assert before[..i + 1] == before[..i] + [before[i]];
        i := i + 1;
      }
    }
    assert kept[..i] == kept && kept[i..] == [];
  }

  /** `resignRequest`: everything is signed again but headers that describe the body or the range. */
  ghost function Resigned(c: Crypto, a: Account, now: string, text: string, body: string): Option<string>
  {
    var r := Deserialized(text);
    if QueryBytes(r.queries) then BuiltRequest(c, a, now, r.(headers := KeptHeaders(r.headers)), body) else None
  }

  method ResignRequest(c: Crypto, a: Account, now: string, text: string, body: string) returns (again: Option<string>)
    requires QueryBytes(Deserialized(text).queries)
    ensures again == Resigned(c, a, now, text, body)
  {
    var r := Deserialize(text);
    var headers := EraseHeaders(r.headers);
    again := BuildRequest(c, a, now, r.(headers := headers), body);
  }
}
