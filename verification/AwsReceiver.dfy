/** The service that receives a signed request: it knows the secret of a key, and the text. It checks the signature as AWS Signature
    Version 4 prescribes, with what it reads in the text alone, for what src/cloud/aws_signer.cpp sends. */
module AwsReceiver {
  import opened Options
  import opened Texts
  import opened Dictionary
  import opened HttpWire
  import opened UrlEncoding
  import HttpRequest
  import opened AwsSigner

  /** A key the service has given out, with the region of the service. */
  datatype Key = Key(id: string, secret: string, region: string)

  /** What the Authorization header claims: the parts of its credential, the names of the headers signed, and the signature. */
  datatype Claim = Claim(scope: seq<string>, names: seq<string>, signature: string)

  // ---------------------------------------------------------------------------------------------
  // Reading the claim
  // ---------------------------------------------------------------------------------------------

  /** The parts of a text between the marks. */
  function Cut(s: string, mark: char): (parts: seq<string>)
    ensures parts != []
    decreases |s|
  {
    match Find(s, [mark]) case None => [s] case Some(i) => [s[..i]] + Cut(s[i + 1..], mark)
  }

  function Between(s: string, front: string, back: string): Option<string> {
    if |front| + |back| <= |s| && s[..|front|] == front && s[|s| - |back|..] == back then Some(s[|front|..|s| - |back|]) else None
  }

  function ClaimOf(authorization: string): Option<Claim> {
    var words := Cut(authorization, ' ');
    if |words| != 4 || words[0] != "AWS4-HMAC-SHA256" then None
    else
      match (Between(words[1], "Credential=", ","), Between(words[2], "SignedHeaders=", ","), Between(words[3], "Signature=", ""))
      case (Some(credential), Some(names), Some(signature)) => Some(Claim(Cut(credential, '/'), Cut(names, ';'), signature))
      case _ => None
  }

  // ---------------------------------------------------------------------------------------------
  // Normal forms
  // ---------------------------------------------------------------------------------------------

  /** Characters of a path that stand for themselves. */
  predicate PathChar(c: char) {
    Unreserved(c) || c == '/'
  }

  function PathEncoded(s: string): string {
    if s == "" then ""
    else (if PathChar(s[0]) then [s[0]] else if IsByte(s[0]) then EncodeChar(s[0]) else "?") + PathEncoded(s[1..])
  }

  /** The path is decoded and encoded anew. */
  function NormalPath(path: string): string {
    PathEncoded(Decode(path))
  }

  /** Of a run of spaces one is left, and none at the end. */
  function Squeezed(s: string): string {
    if s == "" then ""
    else if s[0] == ' ' && (|s| == 1 || s[1] == ' ') then Squeezed(s[1..])
    else [s[0]] + Squeezed(s[1..])
  }

  /** `name` is the header name in lower case. */
  predicate IsLower(name: string, header: string) {
    && |name| == |header|
    && forall i :: 0 <= i < |header| ==> name[i] == if 'A' <= header[i] <= 'Z' then (header[i] as int + 32) as char else header[i]
  }

  /** The value of the first header with that name, in whatever case. */
  function ValueFor(headers: seq<Entry>, name: string): Option<string> {
    if headers == [] then None else if IsLower(name, headers[0].0) then Some(headers[0].1) else ValueFor(headers[1..], name)
  }

  /** A line for each name; None when one is missing. */
  function Lines(headers: seq<Entry>, names: seq<string>): Option<string> {
    if names == [] then Some("")
    else
      match (ValueFor(headers, names[0]), Lines(headers, names[1..]))
      case (Some(value), Some(rest)) => Some(names[0] + ":" + Squeezed(value) + "\n" + rest)
      case _ => None
  }

  // ---------------------------------------------------------------------------------------------
  // The signature
  // ---------------------------------------------------------------------------------------------

  const DIGITS := "0123456789abcdef"

  function HexOf(s: seq<byte>): string {
    if s == [] then "" else [DIGITS[s[0] as int / 16], DIGITS[s[0] as int % 16]] + HexOf(s[1..])
  }

  /** The key for a scope: one step for each of its parts, in the order in which they stand. */
  function Derived(c: Crypto, key: string, scope: seq<string>): string
    decreases |scope|
  {
    if scope == [] then key else Derived(c, c.hmac(key, scope[0]), scope[1..])
  }

  function Sign(c: Crypto, secret: string, date: string, scope: seq<string>, canonical: string): string {
    HexOf(c.hmac(Derived(c, "AWS4" + secret, scope),
                 "AWS4-HMAC-SHA256\n" + date + "\n" + Join(scope, "/") + "\n" + c.sha256(canonical)))
  }

  /** The canonical request, of its six parts. */
  function Canonical(word: string, path: string, query: string, lines: string, names: seq<string>, hash: string): string {
    word + "\n" + path + "\n" + query + "\n" + lines + "\n" + Join(names, ";") + "\n" + hash
  }

  // ---------------------------------------------------------------------------------------------
  // The decision
  // ---------------------------------------------------------------------------------------------

  function FirstEight(date: string): string {
    if |date| < 8 then date else date[..8]
  }

  /** The credential is for this key, this day, this region and this service. */
  predicate ForThis(key: Key, date: string, scope: seq<string>) {
    scope == [key.id, FirstEight(date), key.region, "s3", "aws4_request"]
  }

  /** The names are in order, the host is among them, and every header is but the claim itself. */
  ghost predicate AllSigned(headers: seq<Entry>, names: seq<string>) {
    && "host" in names && (forall i, j :: 0 <= i < j < |names| ==> Less(names[i], names[j]))
    && forall e :: e in headers ==> e.0 == "Authorization" || exists n :: n in names && IsLower(n, e.0)
  }

  ghost predicate SignatureHolds(c: Crypto, key: Key, word: string, r: HttpRequest.Request, date: string, hash: string, claim: Claim) {
    && ForThis(key, date, claim.scope) && AllSigned(r.headers, claim.names)
    && var lines := Lines(r.headers, claim.names);
       && lines.Some?
       && claim.signature == Sign(c, key.secret, date, claim.scope[1..],
                                  Canonical(word, NormalPath(r.path), Join(Pairs(r.queries), "&"), lines.value, claim.names, hash))
  }

  /** The service accepts the request. */
  ghost predicate Accepts(c: Crypto, key: Key, text: string, body: string) {
    var r := HttpRequest.Deserialized(text);
    var authorization, date, hash := Get(r.headers, "Authorization"), Get(r.headers, "x-amz-date"), Get(r.headers, "x-amz-content-sha256");
    && authorization.Some? && date.Some? && hash.Some?
    && (hash.value == c.sha256(body) || hash.value == "UNSIGNED-PAYLOAD")
    && ClaimOf(authorization.value).Some?
    && SignatureHolds(c, key, Cut(text, ' ')[0], r, date.value, hash.value, ClaimOf(authorization.value).value)
  }
}
