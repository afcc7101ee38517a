/** The headers a request is sent with, and those the receiving service finds signed: src/cloud/aws.cpp, src/cloud/aws_signer.cpp. */
module AwsLines {
  import opened Options
  import opened Texts
  import opened Dictionary
  import opened HttpRequest
  import opened HttpWire
  import opened AwsSigner
  import opened AwsReceiver
  import opened AwsNormal

  // ---------------------------------------------------------------------------------------------
  // Names in lower case
  // ---------------------------------------------------------------------------------------------

  function Names(d: seq<Entry>): (names: seq<string>)
    ensures |names| == |d|
  {
    seq(|d|, i requires 0 <= i < |d| => d[i].0)
  }

  lemma NamesRest(d: seq<Entry>)
    requires d != []
    ensures Names(d)[0] == d[0].0 && Names(d)[1..] == Names(d[1..])
  {
  }

  lemma {:induction false} NameListJoined(d: seq<Entry>)
    ensures NameList(d) == Join(Names(d), ";")
  {
    if d != [] {
      NamesRest(d);
      NameListJoined(d[1..]);
      if |d| > 1 {
        JoinFirst(Names(d), ";");
        assert d[0].0 + (";" + NameList(d[1..])) == d[0].0 + ";" + NameList(d[1..]);
      }
    }
  }

  lemma LowerIs(name: string, header: string)
    ensures IsLower(name, header) <==> name == LowerText(header)
  {
  }

  /** The first value for a name in lower case is kept. */
  lemma {:induction false} LowerGet(h: seq<Entry>, done: seq<Entry>, name: string)
    requires Sorted(done)
    ensures Sorted(LowerHeaders(h, done))
    ensures Get(LowerHeaders(h, done), name) == if Get(done, name).Some? then Get(done, name) else ValueFor(h, name)
    decreases |h|
  {
    if h != [] {
      LowerIs(name, h[0].0);
      EmplaceGet(done, LowerText(h[0].0), h[0].1, name);
      LowerGet(h[1..], Emplace(done, LowerText(h[0].0), h[0].1), name);
    }
  }

  lemma {:induction false} GetAt(d: seq<Entry>, i: nat)
    requires Sorted(d) && i < |d|
    ensures Get(d, d[i].0) == Some(d[i].1)
  {
    if i > 0 {
      LessIrreflexive(d[i].0);
      GetAt(d[1..], i - 1);
    }
  }

  lemma {:induction false} ValueIsThere(h: seq<Entry>, name: string)
    ensures ValueFor(h, name).Some? <==> exists e :: e in h && IsLower(name, e.0)
    ensures ValueFor(h, name).Some? ==> exists e :: e in h && IsLower(name, e.0) && e.1 == ValueFor(h, name).value
  {
    if h != [] {
      ValueIsThere(h[1..], name);
      assert forall e :: e in h <==> e == h[0] || e in h[1..];
    }
  }

  lemma {:induction false} ValueAside(h: seq<Entry>, k: string, v: string, name: string)
    requires |name| != |k|
    ensures ValueFor(Emplace(h, k, v), name) == ValueFor(h, name)
  {
    if h != [] {
      ValueAside(h[1..], k, v, name);
      assert ([h[0]] + Emplace(h[1..], k, v))[1..] == Emplace(h[1..], k, v);
      assert ([(k, v)] + h)[1..] == h;
    }
  }

  // ---------------------------------------------------------------------------------------------
  // The lines
  // ---------------------------------------------------------------------------------------------

  lemma {:induction false} LinesAre(headers: seq<Entry>, d: seq<Entry>)
    requires forall i :: 0 <= i < |d| ==> ValueFor(headers, d[i].0) == Some(d[i].1) && Tidy(d[i].1)
    ensures Lines(headers, Names(d)) == Some(CanonicalHeaders(d))
  {
    if d != [] {
      NamesRest(d);
      assert forall i :: 0 <= i < |d[1..]| ==> d[1..][i] == d[i + 1];
      LinesAre(headers, d[1..]);
      assert ValueFor(headers, d[0].0) == Some(d[0].1);
      TidyStays(d[0].1);
    }
  }

  /** A header that can be signed: its name can stand in a list of names, and its value is in normal form. */
  ghost predicate Signs(e: Entry) {
    ' ' !in e.0 && ';' !in e.0 && |e.0| != |"Authorization"| && Tidy(e.1)
  }

  ghost predicate AllSign(h: seq<Entry>) {
    forall e :: e in h ==> Signs(e)
  }

  /** One entry of the headers in lower case is the value of a header. */
  lemma OneSigned(h: seq<Entry>, claim: string, i: nat)
    requires Sorted(h) && AllSign(h) && i < |LowerHeaders(h, [])|
    ensures var (name, value) := LowerHeaders(h, [])[i];
            ValueFor(Emplace(h, "Authorization", claim), name) == Some(value) && Tidy(value) && ' ' !in name && ';' !in name
  {
    var d := LowerHeaders(h, []);
    var (name, value) := d[i];
    LowerGet(h, [], name);
    GetAt(d, i);
    ValueIsThere(h, name);
    var e :| e in h && IsLower(name, e.0) && e.1 == value;
    assert Signs(e);
    LowerMarks(name, e.0);
    ValueAside(h, "Authorization", claim, name);
  }

  lemma LowerMarks(name: string, header: string)
    requires IsLower(name, header) && ' ' !in header && ';' !in header
    ensures ' ' !in name && ';' !in name
  {
    forall i | 0 <= i < |name|
      ensures name[i] != ' ' && name[i] != ';'
    {
      assert header[i] in header;
    }
  }

  /** The service finds a line for each signed header, and rebuilds what was hashed. */
  lemma LinesFound(h: seq<Entry>, claim: string)
    requires Sorted(h) && AllSign(h)
    ensures var d := LowerHeaders(h, []);
            && Lines(Emplace(h, "Authorization", claim), Names(d)) == Some(CanonicalHeaders(d))
            && forall n :: n in Names(d) ==> ' ' !in n && ';' !in n
  {
    var d := LowerHeaders(h, []);
    forall i | 0 <= i < |d|
      ensures ValueFor(Emplace(h, "Authorization", claim), d[i].0) == Some(d[i].1) && Tidy(d[i].1) && ' ' !in d[i].0 && ';' !in d[i].0
    {
      OneSigned(h, claim, i);
    }
    LinesAre(Emplace(h, "Authorization", claim), d);
  }

  lemma {:induction false} EmplaceFrom(d: seq<Entry>, k: string, v: string)
    ensures forall e :: e in Emplace(d, k, v) ==> e in d || e == (k, v)
  {
    if d != [] { EmplaceFrom(d[1..], k, v); }
  }

  /** Every header is signed but the claim, and the host is. */
  lemma NothingUnsigned(h: seq<Entry>, claim: string)
    requires Sorted(h) && Get(h, "Host").Some?
    ensures AllSigned(Emplace(h, "Authorization", claim), Names(LowerHeaders(h, [])))
  {
    var d := LowerHeaders(h, []);
    LowerGet(h, [], "host");
    EmplaceFrom(h, "Authorization", claim);
    forall e | e in h
      ensures exists n :: n in Names(d) && IsLower(n, e.0)
    {
      NameIsThere(h, e);
    }
    GetIs(h, "Host");
    HostIsLower();
    NameIsThere(h, ("Host", Get(h, "Host").value));
  }

  lemma HostIsLower()
    ensures LowerText("Host") == "host"
  {
    LowerIs("host", "Host");
  }

  lemma NameIsThere(h: seq<Entry>, e: Entry)
    requires e in h
    ensures LowerText(e.0) in Names(LowerHeaders(h, [])) && IsLower(LowerText(e.0), e.0)
  {
    var d, n := LowerHeaders(h, []), LowerText(e.0);
    LowerIs(n, e.0);
    LowerGet(h, [], n);
    ValueIsThere(h, n);
    GetIs(d, n);
    var i :| 0 <= i < |d| && d[i].0 == n;
    assert Names(d)[i] == n;
  }

  // ---------------------------------------------------------------------------------------------
  // What is sent
  // ---------------------------------------------------------------------------------------------

  /** The value of header `x` when the caller has not set it: who is addressed, when, and with whose token. */
  function InitialValue(a: Account, now: string, x: string): Option<string> {
    if x == "Host" then Some(a.address)
    else if x == "x-amz-date" then Some(now)
    else if x == "x-amz-s3session-token" && a.zonal then Some(a.token)
    else if x == "x-amz-request-payer" && !a.zonal then Some("requester")
    else if x == "x-amz-security-token" && !a.zonal && a.token != "" then Some(a.token)
    else None
  }

  /** The value of header `x` that speaks of the body: up to 1024 bytes are hashed, and digested when they are uploaded. */
  function BodyValue(c: Crypto, verb: Method, body: string, x: string): Option<string> {
    if x == "x-amz-content-sha256" then Some(if |body| <= 1024 then c.sha256(body) else "UNSIGNED-PAYLOAD")
    else if x == "Content-MD5" && |body| <= 1024 && (verb == PUT || verb == POST) then Some(c.base64(c.md5(body)))
    else None
  }

  function FirstOf(one: Option<string>, other: Option<string>): Option<string> {
    if one.Some? then one else other
  }

  lemma InitialSent(a: Account, now: string, h: seq<Entry>, x: string)
    requires Sorted(h)
    ensures Sorted(InitialHeaders(a, now, h)) && Get(InitialHeaders(a, now, h), x) == FirstOf(Get(h, x), InitialValue(a, now, x))
  {
    EmplaceGet(h, "Host", a.address, x);
    var hosted := Emplace(h, "Host", a.address);
    EmplaceGet(hosted, "x-amz-date", now, x);
    var dated := Emplace(hosted, "x-amz-date", now);
    EmplaceGet(dated, "x-amz-s3session-token", a.token, x);
    EmplaceGet(dated, "x-amz-request-payer", "requester", x);
    EmplaceGet(Emplace(dated, "x-amz-request-payer", "requester"), "x-amz-security-token", a.token, x);
  }

  lemma BodySent(c: Crypto, verb: Method, body: string, h: seq<Entry>, x: string)
    requires Sorted(h)
    ensures Sorted(BodyHeaders(c, verb, body, h)) && Get(BodyHeaders(c, verb, body, h), x) == FirstOf(Get(h, x), BodyValue(c, verb, body, x))
  {
    EmplaceGet(h, "x-amz-content-sha256", PayloadHash(c, body), x);
    EmplaceGet(Emplace(h, "x-amz-content-sha256", PayloadHash(c, body)), "Content-MD5", c.base64(c.md5(body)), x);
  }

  /** Every header before the claim is added: the caller's, else the one for account and time, else the one for the body. */
  lemma PreparedValue(c: Crypto, a: Account, now: string, verb: Method, h: seq<Entry>, body: string, x: string)
    requires Sorted(h)
    ensures Sorted(Prepared(c, a, now, verb, h, body))
    ensures Get(Prepared(c, a, now, verb, h, body), x) ==
            FirstOf(Get(h, x), FirstOf(InitialValue(a, now, x), BodyValue(c, verb, body, x)))
  {
    InitialSent(a, now, h, x);
    BodySent(c, verb, body, InitialHeaders(a, now, h), x);
  }

  /** Host name, token, clock, hash and digest have no surplus spaces. */
  ghost predicate TidyAccount(c: Crypto, a: Account, now: string) {
    && Tidy(a.address) && Tidy(a.token) && Tidy(now) && (forall s :: Tidy(c.sha256(s))) && (forall s :: Tidy(c.base64(s)))
  }

  lemma ShortIsTidy(s: string)
    requires ' ' !in s
    ensures Tidy(s)
  {
    forall i: nat
      ensures !OccursAt(s, "  ", i)
    {
      if i + 2 <= |s| { assert s[i..i + 2][0] == s[i]; }
    }
  }

  lemma AddedSigns(h: seq<Entry>, k: string, v: string)
    requires AllSign(h) && Signs((k, v))
    ensures AllSign(Emplace(h, k, v))
  {
    EmplaceFrom(h, k, v);
  }

  lemma NamesSign()
    ensures forall v :: Tidy(v) ==> Signs(("Host", v)) && Signs(("x-amz-date", v)) && Signs(("x-amz-s3session-token", v))
  {
  }

  lemma MoreNamesSign()
    ensures forall v :: Tidy(v) ==> Signs(("x-amz-request-payer", v)) && Signs(("x-amz-security-token", v))
  {
  }

  lemma BodyNamesSign()
    ensures forall v :: Tidy(v) ==> Signs(("x-amz-content-sha256", v)) && Signs(("Content-MD5", v))
  {
  }

  lemma InitialSign(c: Crypto, a: Account, now: string, h: seq<Entry>)
    requires AllSign(h) && TidyAccount(c, a, now)
    ensures AllSign(InitialHeaders(a, now, h))
  {
    NamesSign();
    AddedSigns(h, "Host", a.address);
    AddedSigns(Emplace(h, "Host", a.address), "x-amz-date", now);
    var dated := Emplace(Emplace(h, "Host", a.address), "x-amz-date", now);
    if a.zonal {
      AddedSigns(dated, "x-amz-s3session-token", a.token);
    } else {
      MoreNamesSign();
      ShortIsTidy("requester");
      AddedSigns(dated, "x-amz-request-payer", "requester");
      AddedSigns(Emplace(dated, "x-amz-request-payer", "requester"), "x-amz-security-token", a.token);
    }
  }

  lemma PreparedSign(c: Crypto, a: Account, now: string, verb: Method, h: seq<Entry>, body: string)
    requires AllSign(h) && TidyAccount(c, a, now)
    ensures AllSign(Prepared(c, a, now, verb, h, body))
  {
    InitialSign(c, a, now, h);
    BodyNamesSign();
    ShortIsTidy("UNSIGNED-PAYLOAD");
    var initial := InitialHeaders(a, now, h);
    AddedSigns(initial, "x-amz-content-sha256", PayloadHash(c, body));
    AddedSigns(Emplace(initial, "x-amz-content-sha256", PayloadHash(c, body)), "Content-MD5", c.base64(c.md5(body)));
  }
}
