/** Which of the requests that src/cloud/aws_signer.cpp signs the receiving service accepts. */
module AwsAccepted {
  import opened Options
  import opened Texts
  import opened Dictionary
  import opened HttpRequest
  import opened HttpRequestRoundTrip
  import opened HttpWire
  import opened HttpRequestWire
  import HttpRequestParsed
  import opened UrlEncoding
  import opened AwsSigner
  import opened AwsSignerTheorems
  import opened AwsReceiver
  import opened AwsNormal
  import opened AwsLines

  // ---------------------------------------------------------------------------------------------
  // The claim
  // ---------------------------------------------------------------------------------------------

  lemma BetweenThem(front: string, s: string, back: string)
    ensures Between(front + s + back, front, back) == Some(s)
  {
    var t := front + s + back;
    assert t[..|front|] == front && t[|t| - |back|..] == back && t[|front|..|t| - |back|] == s;
  }

  /** The text of a claim: four words. */
  function ClaimText(credential: string, list: string, signature: string): string {
    Join(["AWS4-HMAC-SHA256", "Credential=" + credential + ",", "SignedHeaders=" + list + ",", "Signature=" + signature], " ")
  }

  lemma CutWords(a: string, b: string, d: string, e: string)
    requires ' ' !in a && ' ' !in b && ' ' !in d && ' ' !in e
    ensures Cut(Join([a, b, d, e], " "), ' ') == [a, b, d, e]
  {
    CutJoined([a, b, d, e], ' ');
  }

  lemma WordsOfText(credential: string, list: string, signature: string)
    requires ' ' !in credential && ' ' !in list && ' ' !in signature
    ensures Cut(ClaimText(credential, list, signature), ' ') ==
            ["AWS4-HMAC-SHA256", "Credential=" + credential + ",", "SignedHeaders=" + list + ",", "Signature=" + signature]
  {
    CutWords("AWS4-HMAC-SHA256", "Credential=" + credential + ",", "SignedHeaders=" + list + ",", "Signature=" + signature);
  }

  lemma ClaimRead(scope: seq<string>, names: seq<string>, signature: string, credential: string, list: string)
    requires Cut(credential, '/') == scope && Cut(list, ';') == names
    requires ' ' !in credential && ' ' !in list && ' ' !in signature
    ensures ClaimOf(ClaimText(credential, list, signature)) == Some(Claim(scope, names, signature))
  {
    WordsOfText(credential, list, signature);
    BetweenThem("Credential=", credential, ",");
    BetweenThem("SignedHeaders=", list, ",");
    BetweenThem("Signature=", signature, "");
    assert "Signature=" + signature + "" == "Signature=" + signature;
  }

  /** The scope of a signature made on that day. */
  function ScopeOf(a: Account, date: string): seq<string> {
    [a.keyId, FirstEight(date), a.region, "s3", "aws4_request"]
  }

  lemma AuthorizationText(a: Account, date: string, list: string, signature: string)
    ensures Authorization(a, date, list, signature) == ClaimText(Join(ScopeOf(a, date), "/"), list, signature)
  {
    var scope := Join(ScopeOf(a, date), "/");
    JoinFive(a.keyId, FirstEight(date), a.region, "s3", "aws4_request", "/");
    WordsOfClaim();
    JoinFive("", "AWS4-HMAC-SHA256", "Credential=" + scope + ",", "SignedHeaders=" + list + ",", "Signature=" + signature, " ");
    ScopeRegrouped("AWS4-HMAC-SHA256" + " Credential=", a.keyId, Day(date), a.region, SERVICE, KEY_REQUEST);
    Regroup("AWS4-HMAC-SHA256", "Credential=", scope, "SignedHeaders=", list, "Signature=", signature);
    AuthorizationParts(a, date, list, signature, scope);
  }

  lemma AuthorizationParts(a: Account, date: string, list: string, signature: string, scope: string)
    requires scope == a.keyId + "/" + Day(date) + "/" + a.region + "/" + SERVICE + "/" + KEY_REQUEST
    ensures Authorization(a, date, list, signature) ==
            "AWS4-HMAC-SHA256" + " Credential=" + scope + ", SignedHeaders=" + list + ", Signature=" + signature
  {
    ScopeRegrouped("AWS4-HMAC-SHA256" + " Credential=", a.keyId, Day(date), a.region, SERVICE, KEY_REQUEST);
  }

  lemma WordsOfClaim()
    ensures " Credential=" == " " + "Credential=" && ", SignedHeaders=" == ", " + "SignedHeaders=" && ", Signature=" == ", " + "Signature="
  {
  }

  lemma ScopeRegrouped(front: string, a: string, b: string, d: string, e: string, f: string)
    ensures front + a + "/" + b + "/" + d + "/" + e + "/" + f == front + (a + "/" + b + "/" + d + "/" + e + "/" + f)
  {
  }

  lemma Regroup(start: string, credentialIs: string, scope: string, namesAre: string, list: string, signatureIs: string, signature: string)
    ensures start + (" " + credentialIs) + scope + (", " + namesAre) + list + (", " + signatureIs) + signature ==
            start + " " + (credentialIs + scope + ",") + " " + (namesAre + list + ",") + " " + (signatureIs + signature)
  {
  }

  // ---------------------------------------------------------------------------------------------
  // The signature
  // ---------------------------------------------------------------------------------------------

  lemma DigitIs(n: nat)
    requires n < 16
    ensures DIGITS[n] == LowerHex(n)
  {
  }

  lemma {:induction false} HexIs(s: seq<byte>)
    ensures HexOf(s) == HexText(s)
  {
    if s != [] {
      HexIs(s[1..]);
      DigitIs(s[0] as int / 16);
      DigitIs(s[0] as int % 16);
    }
  }

  lemma DerivedFour(c: Crypto, key: string, a: string, b: string, d: string, e: string)
    ensures Derived(c, key, [a, b, d, e]) == c.hmac(c.hmac(c.hmac(c.hmac(key, a), b), d), e)
  {
    DerivedStep(c, key, a, [b, d, e]);
    DerivedStep(c, c.hmac(key, a), b, [d, e]);
    DerivedStep(c, c.hmac(c.hmac(key, a), b), d, [e]);
    DerivedStep(c, c.hmac(c.hmac(c.hmac(key, a), b), d), e, []);
    assert [a] + [b, d, e] == [a, b, d, e] && [b] + [d, e] == [b, d, e] && [d] + [e] == [d, e] && [e] + [] == [e];
  }

  lemma DerivedStep(c: Crypto, key: string, a: string, rest: seq<string>)
    ensures Derived(c, key, [a] + rest) == Derived(c, c.hmac(key, a), rest)
  {
    assert ([a] + rest)[1..] == rest;
  }

  /** The signature is the one the service expects for what was signed. */
  lemma SignatureIs(c: Crypto, a: Account, date: string, canonical: string)
    ensures Signature(c, a, date, c.sha256(canonical)) == Sign(c, a.secret, date, ScopeOf(a, date)[1..], canonical)
  {
    var day := FirstEight(date);
    JoinFive("", day, a.region, "s3", "aws4_request", "/");
    assert ScopeOf(a, date)[1..] == [day, a.region, "s3", "aws4_request"];
    DerivedFour(c, "AWS4" + a.secret, day, a.region, "s3", "aws4_request");
    HexIs(c.hmac(Derived(c, "AWS4" + a.secret, ScopeOf(a, date)[1..]), StringToSign(date, a.region, c.sha256(canonical))));
    ToSign("AWS4-HMAC-SHA256\n" + date + "\n", day, a.region, c.sha256(canonical));
  }

  lemma ToSign(front: string, day: string, region: string, sha: string)
    ensures front + day + "/" + region + "/" + "s3" + "/aws4_request\n" + sha ==
            front + (day + "/" + region + "/" + "s3" + "/" + "aws4_request") + "\n" + sha
  {
    assert "/aws4_request\n" == "/" + "aws4_request" + "\n";
  }

  // ---------------------------------------------------------------------------------------------
  // Different requests have different signatures
  // ---------------------------------------------------------------------------------------------

  /** No two texts have the same hash, nor under one key the same code. */
  ghost predicate Collisionless(c: Crypto) {
    && (forall s, t :: c.sha256(s) == c.sha256(t) ==> s == t)
    && (forall k, s, t :: c.hmac(k, s) == c.hmac(k, t) ==> s == t)
  }

  lemma DigitsApart(n: nat, m: nat)
    requires n < 16 && m < 16 && DIGITS[n] == DIGITS[m]
    ensures n == m
  {
    DigitIs(n);
    DigitIs(m);
  }

  lemma {:induction false} HexApart(s: seq<byte>, t: seq<byte>)
    requires HexOf(s) == HexOf(t)
    ensures s == t
  {
    if s != [] && t != [] {
      var a, b := HexOf(s), HexOf(t);
      assert a[0] == b[0] && a[1] == b[1] && a[2..] == b[2..];
      DigitsApart(s[0] as int / 16, t[0] as int / 16);
      DigitsApart(s[0] as int % 16, t[0] as int % 16);
      assert a[2..] == HexOf(s[1..]) && b[2..] == HexOf(t[1..]);
      HexApart(s[1..], t[1..]);
      assert s == [s[0]] + s[1..] && t == [t[0]] + t[1..];
    }
  }

  lemma SignApart(c: Crypto, secret: string, date: string, scope: seq<string>, one: string, other: string)
    requires Collisionless(c) && Sign(c, secret, date, scope, one) == Sign(c, secret, date, scope, other)
    ensures one == other
  {
    var key, front := Derived(c, "AWS4" + secret, scope), "AWS4-HMAC-SHA256\n" + date + "\n" + Join(scope, "/") + "\n";
    HexApart(c.hmac(key, front + c.sha256(one)), c.hmac(key, front + c.sha256(other)));
    SameFront(front, c.sha256(one), c.sha256(other));
  }

  lemma SameFront(front: string, a: string, b: string)
    requires front + a == front + b
    ensures a == b
  {
    assert (front + a)[|front|..] == a && (front + b)[|front|..] == b;
  }

  lemma SameBack(a: string, b: string, back: string)
    requires a + back == b + back
    ensures a == b
  {
    assert (a + back)[..|a|] == a && (b + back)[..|b|] == b;
  }

  /** The last line of two tells them apart. */
  lemma LastLine(p: string, q: string, p': string, q': string)
    requires '\n' !in q && '\n' !in q' && p + "\n" + q == p' + "\n" + q'
    ensures p == p' && q == q'
  {
    var s, s' := p + "\n" + q, p' + "\n" + q';
    assert s[|p|] == '\n' && s'[|p'|] == '\n';
    assert forall i :: |p| < i < |s| ==> s[i] == q[i - |p| - 1];
    assert forall i :: |p'| < i < |s'| ==> s'[i] == q'[i - |p'| - 1];
    assert |p| == |p'|;
    assert s[..|p|] == p && s'[..|p'|] == p' && s[|p| + 1..] == q && s'[|p'| + 1..] == q';
  }

  lemma CanonicalApart(word: string, path: string, query: string, path': string, query': string, lines: string, names: seq<string>, hash: string)
    requires '\n' !in query && '\n' !in query'
    requires Canonical(word, path, query, lines, names, hash) == Canonical(word, path', query', lines, names, hash)
    ensures path == path' && query == query'
  {
    var back := "\n" + lines + "\n" + Join(names, ";") + "\n" + hash;
    CanonicalParts(word, path, query, lines, names, hash, back);
    CanonicalParts(word, path', query', lines, names, hash, back);
    SameBack(word + "\n" + (path + "\n" + query), word + "\n" + (path' + "\n" + query'), back);
    SameFront(word + "\n", path + "\n" + query, path' + "\n" + query');
    LastLine(path, query, path', query');
  }

  lemma CanonicalParts(word: string, path: string, query: string, lines: string, names: seq<string>, hash: string, back: string)
    requires back == "\n" + lines + "\n" + Join(names, ";") + "\n" + hash
    ensures Canonical(word, path, query, lines, names, hash) == word + "\n" + (path + "\n" + query) + back
  {
  }

  /** Entries without a line end have a text without one. */
  lemma OneLine(q: seq<Entry>)
    requires forall e :: e in q ==> '\n' !in e.0 && '\n' !in e.1
    ensures '\n' !in Join(Pairs(q), "&")
  {
    forall x | x in Pairs(q)
      ensures '\n' !in x
    {
      var i :| 0 <= i < |q| && x == Pairs(q)[i];
      assert q[i] in q && x == q[i].0 + "=" + q[i].1;
    }
    JoinWithout(Pairs(q), "&", '\n');
  }

  lemma EncodedOneLine(q: seq<Entry>)
    requires QueryBytes(q)
    ensures forall e :: e in Encoded(q) ==> '\n' !in e.0 && '\n' !in e.1
  {
    EncodedSize(q);
    forall i | 0 <= i < |q|
      ensures '\n' !in Encoded(q)[i].0 && '\n' !in Encoded(q)[i].1
    {
      EncodedAtIndex(q, i);
      EncodedChars(q[i].0);
      EncodedChars(q[i].1);
    }
  }

  lemma QueriesOnOneLine(q: seq<Entry>)
    requires QueryBytes(q)
    ensures '\n' !in Join(Pairs(AssignAll([], Encoded(q))), "&") && '\n' !in EncodedQuery(q)
  {
    var e := Encoded(q);
    EncodedOneLine(q);
    AssignAllFrom([], e);
    OneLine(e);
    OneLine(AssignAll([], e));
    QueryTextJoined(e);
  }

  /** The canonical request that the service rebuilds is the one that was signed. */
  ghost predicate Rebuilt(word: string, path: string, q: seq<Entry>, lines: string, names: seq<string>, hash: string)
    requires QueryBytes(q)
  {
    Canonical(word, NormalPath(path), Join(Pairs(AssignAll([], Encoded(q))), "&"), lines, names, hash) ==
    Canonical(word, path, EncodedQuery(q), lines, names, hash)
  }

  lemma RebuiltExactly(word: string, path: string, q: seq<Entry>, lines: string, names: seq<string>, hash: string)
    requires QueryBytes(q)
    ensures Rebuilt(word, path, q, lines, names, hash) <==> Escaped(path) && Sorted(Encoded(q))
  {
    EscapedExactly(path);
    QueriesInOrder(q);
    QueriesOnOneLine(q);
    if Rebuilt(word, path, q, lines, names, hash) {
      CanonicalApart(word, NormalPath(path), Join(Pairs(AssignAll([], Encoded(q))), "&"), path, EncodedQuery(q), lines, names, hash);
    }
  }

  // ---------------------------------------------------------------------------------------------
  // The request sent, as the service sees it
  // ---------------------------------------------------------------------------------------------

  predicate Unspaced(s: string) {
    ' ' !in s && '/' !in s
  }

  /** Credentials, clock and header values in the form the service expects them in: no space or slash within the scope, and no
      surplus spaces in a header. */
  ghost predicate Presentable(c: Crypto, a: Account, now: string, r: Request) {
    && Signable(c, a, now) && Callable(r) && TidyAccount(c, a, now) && (forall e :: e in r.headers ==> Tidy(e.1))
    && Unspaced(a.keyId) && Unspaced(a.region) && Unspaced(FirstEight(now))
  }

  /** The claim that is sent. */
  function Claimed(c: Crypto, a: Account, now: string, verb: Method, uri: string, query: string, h: seq<Entry>, body: string): string {
    var d := LowerHeaders(h, []);
    Authorization(a, now, NameList(d), Signature(c, a, now, c.sha256(CanonicalRequest(verb, uri, query, d, PayloadHash(c, body)))))
  }

  lemma CallerHasNot(h: seq<Entry>, x: string)
    requires (forall e :: e in h ==> CallerHeader(e.0)) && !CallerHeader(x)
    ensures Get(h, x).None?
  {
    GetIs(h, x);
  }

  lemma CallerSigns(h: seq<Entry>)
    requires forall e :: e in h ==> CallerHeader(e.0) && Tidy(e.1)
    ensures AllSign(h)
  {
    forall e | e in h
      ensures Signs(e)
    {
    }
  }

  /** What the service reads: the encoded queries, and the headers with the claim. */
  lemma SentIsRead(c: Crypto, a: Account, now: string, r: Request, body: string) returns (h: seq<Entry>)
    requires Presentable(c, a, now, r)
    ensures h == Prepared(c, a, now, r.verb, r.headers, body) && Sorted(h) && AllSign(h)
    ensures BuiltRequest(c, a, now, r, body).Some?
    ensures Deserialized(BuiltRequest(c, a, now, r, body).value) ==
            Request(AssignAll([], Encoded(r.queries)),
                    Emplace(h, "Authorization", Claimed(c, a, now, r.verb, PathOrRoot(r.path), EncodedQuery(r.queries), h, body)),
                    r.verb, r.http11, PathOrRoot(r.path))
  {
    var date;
    h, date := SignedIsSent(c, a, now, r, body);
    CallerHasNot(r.headers, "x-amz-date");
    PreparedValue(c, a, now, r.verb, r.headers, body, "x-amz-date");
    CallerSigns(r.headers);
    PreparedSign(c, a, now, r.verb, r.headers, body);
  }

  /** Every header that is sent: the caller's, else the one for account and time, else the one for the body, and the claim. */
  lemma HeadersSent(c: Crypto, a: Account, now: string, r: Request, body: string, x: string)
    requires Presentable(c, a, now, r) && x != "Authorization"
    ensures BuiltRequest(c, a, now, r, body).Some?
    ensures Get(Deserialized(BuiltRequest(c, a, now, r, body).value).headers, x) ==
            FirstOf(Get(r.headers, x), FirstOf(InitialValue(a, now, x), BodyValue(c, r.verb, body, x)))
  {
    var h := SentIsRead(c, a, now, r, body);
    PreparedValue(c, a, now, r.verb, r.headers, body, x);
    EmplaceGet(h, "Authorization", Claimed(c, a, now, r.verb, PathOrRoot(r.path), EncodedQuery(r.queries), h, body), x);
  }

  lemma FirstWord(word: string, rest: string)
    requires ' ' !in word
    ensures Cut(word + " " + rest, ' ')[0] == word
  {
    CutFront(word, ' ', rest);
  }

  lemma WordSent(verb: Method, uri: string, query: string, http11: bool, headers: seq<Entry>)
    ensures Cut(RequestText(verb, uri, query, http11, headers), ' ')[0] == MethodText(verb)
  {
    var m, rest := MethodText(verb), uri + "?" + query + " " + TypeText(http11) + CRLF + HeaderText(headers) + CRLF;
    FirstWord(m, rest);
    TextInWords(m, uri + "?" + query, TypeText(http11), HeaderText(headers));
  }

  lemma TextInWords(m: string, target: string, version: string, lines: string)
    ensures m + " " + target + " " + version + CRLF + lines + CRLF == m + " " + (target + " " + version + CRLF + lines + CRLF)
  {
  }

  lemma {:induction false} HexUnspaced(s: seq<byte>)
    ensures ' ' !in HexText(s)
  {
    if s != [] { HexUnspaced(s[1..]); }
  }

  lemma ScopeRead(a: Account, now: string)
    requires Unspaced(a.keyId) && Unspaced(a.region) && Unspaced(FirstEight(now))
    ensures Cut(Join(ScopeOf(a, now), "/"), '/') == ScopeOf(a, now) && ' ' !in Join(ScopeOf(a, now), "/")
  {
    CutJoined(ScopeOf(a, now), '/');
    JoinWithout(ScopeOf(a, now), "/", ' ');
  }

  lemma NamesRead(d: seq<Entry>)
    requires d != [] && forall n :: n in Names(d) ==> ' ' !in n && ';' !in n
    ensures Cut(NameList(d), ';') == Names(d) && ' ' !in NameList(d)
  {
    NameListJoined(d);
    CutJoined(Names(d), ';');
    JoinWithout(Names(d), ";", ' ');
  }

  /** The service reads scope, names and signature from the claim. */
  lemma ClaimIsRead(a: Account, now: string, d: seq<Entry>, signature: string)
    requires Unspaced(a.keyId) && Unspaced(a.region) && Unspaced(FirstEight(now)) && ' ' !in signature
    requires d != [] && forall n :: n in Names(d) ==> ' ' !in n && ';' !in n
    ensures ClaimOf(Authorization(a, now, NameList(d), signature)) == Some(Claim(ScopeOf(a, now), Names(d), signature))
  {
    AuthorizationText(a, now, NameList(d), signature);
    ScopeRead(a, now);
    NamesRead(d);
    ClaimRead(ScopeOf(a, now), Names(d), signature, Join(ScopeOf(a, now), "/"), NameList(d));
  }

  lemma CanonicalIs(verb: Method, uri: string, query: string, d: seq<Entry>, hash: string)
    ensures CanonicalRequest(verb, uri, query, d, hash) == Canonical(MethodText(verb), uri, query, CanonicalHeaders(d), Names(d), hash)
  {
    NameListJoined(d);
  }

  /** All checks but the last succeed, and the last compares the request rebuilt with the request signed. */
  lemma LastCheck(c: Crypto, a: Account, now: string, verb: Method, uri: string, q: seq<Entry>, h: seq<Entry>, hash: string,
                  r: Request, claim: Claim)
    requires Sorted(h) && AllSign(h) && Get(h, "Host").Some? && QueryBytes(q)
    requires exists text :: r.headers == Emplace(h, "Authorization", text)
    requires r.path == uri && r.queries == AssignAll([], Encoded(q))
    requires var d := LowerHeaders(h, []);
             claim == Claim(ScopeOf(a, now), Names(d), Signature(c, a, now, c.sha256(CanonicalRequest(verb, uri, EncodedQuery(q), d, hash))))
    ensures var names, lines, word := claim.names, CanonicalHeaders(LowerHeaders(h, [])), MethodText(verb);
            SignatureHolds(c, Key(a.keyId, a.secret, a.region), word, r, now, hash, claim) <==>
              Sign(c, a.secret, now, claim.scope[1..], Canonical(word, uri, EncodedQuery(q), lines, names, hash)) ==
              Sign(c, a.secret, now, claim.scope[1..],
                   Canonical(word, NormalPath(uri), Join(Pairs(AssignAll([], Encoded(q))), "&"), lines, names, hash))
  {
    var text :| r.headers == Emplace(h, "Authorization", text);
    var d := LowerHeaders(h, []);
    LinesFound(h, text);
    NothingUnsigned(h, text);
    CanonicalIs(verb, uri, EncodedQuery(q), d, hash);
    SignatureIs(c, a, now, CanonicalRequest(verb, uri, EncodedQuery(q), d, hash));
  }

  // ---------------------------------------------------------------------------------------------
  // The decision
  // ---------------------------------------------------------------------------------------------

  lemma ClaimIsThere(c: Crypto, a: Account, now: string, r: Request, body: string, claim: string)
    requires Presentable(c, a, now, r)
    ensures var h := Prepared(c, a, now, r.verb, r.headers, body); Sorted(h) && Get(Emplace(h, "Authorization", claim), "Authorization") == Some(claim)
  {
    var h := Prepared(c, a, now, r.verb, r.headers, body);
    CallerHasNot(r.headers, "Authorization");
    PreparedValue(c, a, now, r.verb, r.headers, body, "Authorization");
    EmplaceGet(h, "Authorization", claim, "Authorization");
  }

  lemma DateAndHash(c: Crypto, a: Account, now: string, r: Request, body: string)
    requires Presentable(c, a, now, r)
    ensures BuiltRequest(c, a, now, r, body).Some?
    ensures var headers := Deserialized(BuiltRequest(c, a, now, r, body).value).headers;
            Get(headers, "x-amz-date") == Some(now) && Get(headers, "x-amz-content-sha256") == Some(PayloadHash(c, body))
  {
    CallerHasNot(r.headers, "x-amz-date");
    CallerHasNot(r.headers, "x-amz-content-sha256");
    HeadersSent(c, a, now, r, body, "x-amz-date");
    HeadersSent(c, a, now, r, body, "x-amz-content-sha256");
  }

  /** All that the service needs to judge the request sent. */
  lemma Judged(c: Crypto, a: Account, now: string, r: Request, body: string) returns (h: seq<Entry>, claim: Claim)
    requires Presentable(c, a, now, r)
    ensures h == Prepared(c, a, now, r.verb, r.headers, body) && Sorted(h) && AllSign(h) && Get(h, "Host").Some?
    ensures BuiltRequest(c, a, now, r, body).Some?
    ensures claim == Claim(ScopeOf(a, now), Names(LowerHeaders(h, [])),
                           Signature(c, a, now, c.sha256(CanonicalRequest(r.verb, PathOrRoot(r.path), EncodedQuery(r.queries),
                                                                          LowerHeaders(h, []), PayloadHash(c, body)))))
    ensures var text := BuiltRequest(c, a, now, r, body).value;
            && Get(Deserialized(text).headers, "Authorization").Some?
            && ClaimOf(Get(Deserialized(text).headers, "Authorization").value) == Some(claim)
            && (exists t :: Deserialized(text).headers == Emplace(h, "Authorization", t))
  {
    h := SentIsRead(c, a, now, r, body);
    var d := LowerHeaders(h, []);
    var signature := Signature(c, a, now, c.sha256(CanonicalRequest(r.verb, PathOrRoot(r.path), EncodedQuery(r.queries), d, PayloadHash(c, body))));
    claim := Claim(ScopeOf(a, now), Names(d), signature);
    ClaimIsThere(c, a, now, r, body, Authorization(a, now, NameList(d), signature));
    CallerHasNot(r.headers, "Host");
    PreparedValue(c, a, now, r.verb, r.headers, body, "Host");
    LinesFound(h, "");
    NothingUnsigned(h, "");
    SignatureUnspaced(c, a, now, c.sha256(CanonicalRequest(r.verb, PathOrRoot(r.path), EncodedQuery(r.queries), d, PayloadHash(c, body))));
    ClaimIsRead(a, now, d, signature);
  }

  lemma SignatureUnspaced(c: Crypto, a: Account, now: string, sha: string)
    ensures ' ' !in Signature(c, a, now, sha)
  {
    var key := c.hmac(c.hmac(c.hmac(c.hmac("AWS4" + a.secret, Day(now)), a.region), SERVICE), KEY_REQUEST);
    HexUnspaced(c.hmac(key, StringToSign(now, a.region, sha)));
  }

  lemma RootEscaped(path: string)
    ensures Escaped(PathOrRoot(path)) <==> Escaped(path)
  {
    assert Escaped("");
    assert "/"[1..] == "";
  }

  /** The service rebuilds what was signed exactly if the path is escaped and the encoded queries are in order; otherwise, unless
      two texts have the same hash or code, it refuses. */
  lemma ServiceAccepts(c: Crypto, a: Account, now: string, r: Request, body: string)
    requires Presentable(c, a, now, r)
    ensures BuiltRequest(c, a, now, r, body).Some?
    ensures var text, key := BuiltRequest(c, a, now, r, body).value, Key(a.keyId, a.secret, a.region);
            && (Escaped(r.path) && Sorted(Encoded(r.queries)) ==> Accepts(c, key, text, body))
            && (Collisionless(c) ==> (Accepts(c, key, text, body) <==> Escaped(r.path) && Sorted(Encoded(r.queries))))
  {
    var h, claim := Judged(c, a, now, r, body);
    var text := BuiltRequest(c, a, now, r, body).value;
    DateAndHash(c, a, now, r, body);
    var uri, hash := PathOrRoot(r.path), PayloadHash(c, body);
    var sent := SentIsRead(c, a, now, r, body);
    BuiltWord(c, a, now, r, body);
    LastCheck(c, a, now, r.verb, uri, r.queries, h, hash, Deserialized(text), claim);
    var lines, names := CanonicalHeaders(LowerHeaders(h, [])), claim.names;
    RebuiltExactly(MethodText(r.verb), uri, r.queries, lines, names, hash);
    RootEscaped(r.path);
    SameSignature(c, a.secret, now, claim.scope[1..], MethodText(r.verb), uri, r.queries, lines, names, hash);
  }

  /** The signatures agree exactly if the canonical requests do, one way for every hash. */
  lemma SameSignature(c: Crypto, secret: string, now: string, scope: seq<string>, word: string, uri: string, q: seq<Entry>,
                      lines: string, names: seq<string>, hash: string)
    requires QueryBytes(q)
    ensures var one := Sign(c, secret, now, scope, Canonical(word, uri, EncodedQuery(q), lines, names, hash));
            var other := Sign(c, secret, now, scope,
                              Canonical(word, NormalPath(uri), Join(Pairs(AssignAll([], Encoded(q))), "&"), lines, names, hash));
            && (Rebuilt(word, uri, q, lines, names, hash) ==> one == other)
            && (Collisionless(c) && one == other ==> Rebuilt(word, uri, q, lines, names, hash))
  {
    var one := Canonical(word, uri, EncodedQuery(q), lines, names, hash);
    var other := Canonical(word, NormalPath(uri), Join(Pairs(AssignAll([], Encoded(q))), "&"), lines, names, hash);
    if Collisionless(c) && Sign(c, secret, now, scope, one) == Sign(c, secret, now, scope, other) {
      SignApart(c, secret, now, scope, one, other);
    }
  }

  lemma BuiltWord(c: Crypto, a: Account, now: string, r: Request, body: string)
    requires QueryBytes(r.queries) && BuiltRequest(c, a, now, r, body).Some?
    ensures Cut(BuiltRequest(c, a, now, r, body).value, ' ')[0] == MethodText(r.verb)
  {
    var uri, query := PathOrRoot(r.path), EncodedQuery(r.queries);
    var prepared := Prepared(c, a, now, r.verb, r.headers, body);
    var date := Get(prepared, AMZ_DATE).value;
    WordSent(r.verb, uri, query, r.http11, SignedHeaders(c, a, date, r.verb, uri, query, prepared, body));
  }

  // ---------------------------------------------------------------------------------------------
  // Signing again, and examples
  // ---------------------------------------------------------------------------------------------

  lemma {:induction false} KeptFrom(h: seq<Entry>)
    ensures forall e :: e in KeptHeaders(h) ==> e in h && CallerHeader(e.0)
    ensures Sorted(h) ==> Sorted(KeptHeaders(h))
  {
    if h != [] {
      var rest := h[1..];
      KeptFrom(rest);
      assert forall i :: 0 <= i < |rest| ==> rest[i] == h[i + 1];
      if Sorted(h) && CallerHeader(h[0].0) {
        forall j | 0 <= j < |KeptHeaders(rest)|
          ensures Less(h[0].0, KeptHeaders(rest)[j].0)
        {
          var i :| 0 <= i < |rest| && rest[i] == KeptHeaders(rest)[j];
          assert rest[i] == h[i + 1];
        }
      }
    }
  }

  /** Whatever is read from a text can be signed. */
  lemma ParsedIsCallable(text: string)
    requires QueryBytes(Deserialized(text).queries)
    ensures var r := Deserialized(text); Callable(r.(headers := KeptHeaders(r.headers)))
  {
    HttpRequestParsed.ParsedIsPrintable(text);
    KeptFrom(Deserialized(text).headers);
  }

  /** A request signed again is judged by what was read from its text: the service accepts it if that path is escaped and those
      queries are in order once encoded. */
  lemma ResignedAccepted(c: Crypto, a: Account, now: string, text: string, body: string)
    requires QueryBytes(Deserialized(text).queries) && Signable(c, a, now) && TidyAccount(c, a, now)
    requires Unspaced(a.keyId) && Unspaced(a.region) && Unspaced(FirstEight(now))
    requires forall e :: e in Deserialized(text).headers ==> Tidy(e.1)
    ensures Resigned(c, a, now, text, body).Some?
    ensures var r, again := Deserialized(text), Resigned(c, a, now, text, body).value;
            var key := Key(a.keyId, a.secret, a.region);
            && (Escaped(r.path) && Sorted(Encoded(r.queries)) ==> Accepts(c, key, again, body))
            && (Collisionless(c) ==> (Accepts(c, key, again, body) <==> Escaped(r.path) && Sorted(Encoded(r.queries))))
  {
    var r := Deserialized(text);
    ParsedIsCallable(text);
    KeptFrom(r.headers);
    ServiceAccepts(c, a, now, r.(headers := KeptHeaders(r.headers)), body);
  }

  lemma {:induction false} KeptGet(h: seq<Entry>, x: string)
    ensures Get(KeptHeaders(h), x) == if x == "Range" || x == "Content-Length" then Get(h, x) else None
  {
    if h != [] {
      KeptGet(h[1..], x);
      var rest := KeptHeaders(h[1..]);
      assert KeptHeaders(h) == if CallerHeader(h[0].0) then [h[0]] + rest else rest;
      assert ([h[0]] + rest)[1..] == rest;
    }
  }

  /** Of the headers that were sent before, range and length of the content are sent again; all others are made anew. */
  lemma ResignedHeaders(c: Crypto, a: Account, now: string, text: string, body: string, x: string)
    requires QueryBytes(Deserialized(text).queries) && Signable(c, a, now) && TidyAccount(c, a, now)
    requires Unspaced(a.keyId) && Unspaced(a.region) && Unspaced(FirstEight(now))
    requires (forall e :: e in Deserialized(text).headers ==> Tidy(e.1)) && x != "Authorization"
    ensures Resigned(c, a, now, text, body).Some?
    ensures var r, again := Deserialized(text), Deserialized(Resigned(c, a, now, text, body).value);
            && again.verb == r.verb && again.http11 == r.http11 && again.path == (if r.path == "" then "/" else r.path)
            && Get(again.headers, x) ==
               FirstOf(if x == "Range" || x == "Content-Length" then Get(r.headers, x) else None,
                       FirstOf(InitialValue(a, now, x), BodyValue(c, r.verb, body, x)))
  {
    var r := Deserialized(text);
    ParsedIsCallable(text);
    KeptFrom(r.headers);
    KeptGet(r.headers, x);
    var kept := r.(headers := KeptHeaders(r.headers));
    HeadersSent(c, a, now, kept, body, x);
    var h := SentIsRead(c, a, now, kept, body);
  }

  lemma {:induction false} PlainIsEscaped(path: string)
    requires forall i :: 0 <= i < |path| ==> PathChar(path[i])
    ensures Escaped(path)
  {
    if path != "" {
      assert forall i :: 0 <= i < |path[1..]| ==> path[1..][i] == path[i + 1];
      PlainIsEscaped(path[1..]);
    }
  }

  /** Paths and queries of characters that need no encoding are always accepted. */
  lemma PlainAccepted(c: Crypto, a: Account, now: string, r: Request, body: string)
    requires Presentable(c, a, now, r)
    requires (forall i :: 0 <= i < |r.path| ==> PathChar(r.path[i])) && QueriesUnreserved(r.queries)
    ensures BuiltRequest(c, a, now, r, body).Some?
    ensures Accepts(c, Key(a.keyId, a.secret, a.region), BuiltRequest(c, a, now, r, body).value, body)
  {
    PlainIsEscaped(r.path);
    UnreservedStay(r.queries);
    ServiceAccepts(c, a, now, r, body);
  }

  /** A path with a plus sign is signed as it stands, but not escaped. */
  lemma PlusIsNotEscaped(path: string)
    requires path == "/a+b"
    ensures !Escaped(path)
  {
    assert path[1..][1..][0] == '+';
    assert !Escaped(path[1..][1..]);
    assert path[1..][0] == 'a' && !Escaped(path[1..]);
  }

  /** Two queries that are in order before they are encoded, but not after. */
  lemma OrderIsLost(q: seq<Entry>)
    requires q == [("a-b", ""), ("a/b", "")]
    ensures Sorted(q) && QueryBytes(q) && !Sorted(Encoded(q))
  {
    assert Less("-b", "/b");
    assert "a-b"[1..] == "-b" && "a/b"[1..] == "/b";
    EncodedAtIndex(q, 0);
    EncodedAtIndex(q, 1);
    SlashEncoded();
    EncodeLength("a-b");
    assert "a%2Fb"[1..] == "%2Fb";
    LessFirst('a', "-b", "%2Fb");
  }

  lemma LessFirst(c: char, a: string, b: string)
    requires a != "" && b != "" && a[0] > b[0]
    ensures !Less([c] + a, [c] + b)
  {
    assert ([c] + a)[1..] == a && ([c] + b)[1..] == b;
  }
}
