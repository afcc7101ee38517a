/** Deciding when an HTTP response has arrived completely: src/network/http_helper.cpp. */
module HttpHelper {
  import opened Options
  import opened Words
  import opened Texts
  import opened Dictionary
  import opened HttpResponse

  const TRANSFER_ENCODING := "Transfer-Encoding"
  const CONTENT_LENGTH := "Content-Length"
  const CHUNK_END := "0\r\n\r\n"

  datatype Encoding = Unknown | ContentLength | Chunked

  datatype Info = Info(response: Response, length: nat, headerLength: nat, encoding: Encoding)

  /** None is an exception. */
  datatype Verdict = Throws | Says(done: bool, info: Info)

  // ---------------------------------------------------------------------------------------------
  // detect
  // ---------------------------------------------------------------------------------------------

  /** The decimal digits at the start of a text and their value, as `std::from_chars` reads them:
      a text without digits, or with a value beyond 64 bits, leaves the target at zero. */
  function LeadingNumber(s: string, value: nat): nat
    decreases |s|
  {
    if s != "" && '0' <= s[0] <= '9' then LeadingNumber(s[1..], 10 * value + (s[0] - '0') as nat) else value
  }

  function FromChars(s: string): (n: nat)
    ensures n < WORD
  {
    var v := LeadingNumber(s, 0);
    if v < WORD then v else 0
  }

  /** With `te`, `cl` and `chunked` for the two header names and the one value looked for. */
  function EncodingBy(headers: seq<Entry>, te: string, cl: string, chunked: string): Encoding {
    if Get(headers, te) == Some(chunked) then Chunked
    else if Get(headers, cl).Some? then ContentLength
    else Unknown
  }

  function LengthBy(headers: seq<Entry>, cl: string): (n: nat)
    ensures n < WORD
  {
    match Get(headers, cl) case None => 0 case Some(v) => FromChars(v)
  }

  function EncodingOf(headers: seq<Entry>): Encoding {
    EncodingBy(headers, TRANSFER_ENCODING, CONTENT_LENGTH, "chunked")
  }

  function LengthOf(headers: seq<Entry>): (n: nat)
    ensures n < WORD
  {
    LengthBy(headers, CONTENT_LENGTH)
  }

  /** The header length as a 32-bit number; `npos + 4` when there is no blank line. */
  function HeaderLength(data: string): (n: nat)
    ensures n < WORD32
  {
    match Find(data, HEADER_END) case None => 3 case Some(i) => (i + 4) % WORD32
  }

  /** What is known once the header is parsed; without a content length or chunks it is refused. */
  function Judge(response: Response, total: nat, headerLength: nat): Option<Info> {
    var e, n := EncodingOf(response.headers), LengthOf(response.headers);
    if WithoutContent(response.code) then Some(Info(response, n, total % WORD32, e))
    else if e == Unknown then None
    else Some(Info(response, n, headerLength, e))
  }

  /** `HttpHelper::detect`; None is an exception. */
  ghost function Detect(data: string): Option<Info> {
    match ParseLines(data, None)
    case Bad => None
    case Parsed(response, _) => Judge(response, |data|, HeaderLength(data))
  }

  /** One more entry of the sorted header map. */
  lemma EncodingSnoc(d: seq<Entry>, i: nat, te: string, cl: string, chunked: string)
    requires Sorted(d) && i < |d| && Less(cl, te)
    ensures EncodingBy(d[..i + 1], te, cl, chunked) ==
              if d[i].0 == te && d[i].1 == chunked then Chunked
              else if d[i].0 == cl then ContentLength
              else EncodingBy(d[..i], te, cl, chunked)
    ensures LengthBy(d[..i + 1], cl) == if d[i].0 == cl then FromChars(d[i].1) else LengthBy(d[..i], cl)
    ensures cl != te
  {
    LessIrreflexive(cl);
    GetSnoc(d, i, te);
    GetSnoc(d, i, cl);
    if d[i].0 == cl { LaterIsAbsent(d, i, te); }
    if d[i].0 == te { OwnIsAbsent(d, i); }
  }

  /** The loop over the headers in the order of the map: `te` sorts after `cl`, so a chunked encoding
      overrides a length. */
  method Scan(response: Response, headerLength: nat, te: string, cl: string, chunked: string) returns (info: Info)
    requires Sorted(response.headers) && Less(cl, te)
    ensures info.response == response
    ensures info.encoding == EncodingBy(response.headers, te, cl, chunked)
    ensures info.length == LengthBy(response.headers, cl)
    ensures info.headerLength == if info.encoding == Unknown then 0 else headerLength
  {
    var headers := response.headers;
    info := Info(response, 0, 0, Unknown);
    var i := 0;
    while i < |headers|
      invariant 0 <= i <= |headers| && info.response == response
      invariant info.encoding == EncodingBy(headers[..i], te, cl, chunked) && info.length == LengthBy(headers[..i], cl)
      invariant info.headerLength == if info.encoding == Unknown then 0 else headerLength
    {
      var (key, value) := headers[i];
      EncodingSnoc(headers, i, te, cl, chunked);
      if key == te && value == chunked {
        info := info.(encoding := Chunked, headerLength := headerLength);
      } else if key == cl {
        info := info.(encoding := ContentLength, length := FromChars(value), headerLength := headerLength);
      }
      i := i + 1;
    }
    assert headers[..i] == headers;
  }

  method RunDetect(data: string) returns (result: Option<Info>)
    ensures result == Detect(data)
  {
    var parsed := Deserialize(data);
    if parsed.None? {
      return None;
    }
    ParsedHeadersSorted(data, None);
    NamesInOrder();
    var info := Scan(parsed.value, HeaderLength(data), TRANSFER_ENCODING, CONTENT_LENGTH, "chunked");
    if info.encoding == Unknown && !WithoutContent(info.response.code) {
      return None;
    }
    if WithoutContent(info.response.code) {
      info := info.(headerLength := |data| % WORD32);
    }
    return Some(info);
  }

  lemma NamesInOrder()
    ensures Less(CONTENT_LENGTH, TRANSFER_ENCODING) && CONTENT_LENGTH != TRANSFER_ENCODING
  {
    assert CONTENT_LENGTH[0] == 'C' && TRANSFER_ENCODING[0] == 'T';
  }

  lemma {:induction false} ParsedHeadersSorted(data: string, response: Option<Response>)
    requires ParseLines(data, response).Parsed? && (response.Some? ==> Sorted(response.value.headers))
    ensures Sorted(ParseLines(data, response).response.headers)
    decreases |data|
  {
    var line, rest := FirstSplit(data);
    SplitParsed(OneLine, data, line, rest, response);
    if line != "" {
      if response.Some? {
        var k := Find(line, ": ").value;
        EmplaceGet(response.value.headers, line[..k], line[k + 2..], "");
      }
      ParsedHeadersSorted(rest, OneLine(line, response));
    }
  }

  lemma {:induction false} GetSnoc(d: seq<Entry>, i: nat, k: string)
    requires Sorted(d) && i < |d|
    ensures Get(d[..i + 1], k) == if d[i].0 == k then Some(d[i].1) else Get(d[..i], k)
  {
    if i > 0 {
      GetSnoc(d[1..], i - 1, k);
      assert d[..i + 1][1..] == d[1..][..i] && d[..i][1..] == d[1..][..i - 1];
      LessIrreflexive(k);
    }
  }

  /** A key that sorts after entry `i` is not among the entries up to `i`. */
  lemma LaterIsAbsent(d: seq<Entry>, i: nat, k: string)
    requires Sorted(d) && i < |d| && Less(d[i].0, k)
    ensures Get(d[..i], k).None?
  {
    GetIs(d[..i], k);
    forall j | 0 <= j < i
      ensures d[j].0 != k
    {
      LessTransitive(d[j].0, d[i].0, k);
      LessIrreflexive(k);
    }
  }

  lemma OwnIsAbsent(d: seq<Entry>, i: nat)
    requires Sorted(d) && i < |d|
    ensures Get(d[..i], d[i].0).None?
  {
    GetIs(d[..i], d[i].0);
    forall j | 0 <= j < i
      ensures d[j].0 != d[i].0
    {
      LessIrreflexive(d[i].0);
    }
  }

  // ---------------------------------------------------------------------------------------------
  // finished
  // ---------------------------------------------------------------------------------------------

  /** The decision for a parsed header, with `total` bytes received; `end` is the place of the chunk terminator. */
  function Decide(info: Info, total: nat, end: Option<nat>): Verdict {
    if WithoutContent(info.response.code) then Says(true, info)
    else match info.encoding
      case ContentLength => Says(total >= Add64(info.headerLength, info.length), info)
      case Chunked =>
        (match end
         case None => Says(false, info)
         case Some(pos) => Says(true, info.(length := Sub64(pos, info.headerLength))))
      case Unknown => Throws
  }

  /** `HttpHelper::finished` on the bytes received so far, with the cached header `cached`. */
  ghost function Finished(data: string, cached: Option<Info>): Verdict {
    match (if cached.Some? then cached else Detect(data))
    case None => Throws
    case Some(info) => Decide(info, |data|, Find(data, CHUNK_END))
  }

  method RunFinished(data: string, cached: Option<Info>) returns (v: Verdict)
    ensures v == Finished(data, cached)
  {
    var info := cached;
    if info.None? {
      info := RunDetect(data);
      if info.None? {
        return Throws;
      }
    }
    if WithoutContent(info.value.response.code) {
      return Says(true, info.value);
    }
    match info.value.encoding
    case ContentLength =>
      return Says(|data| >= Add64(info.value.headerLength, info.value.length), info.value);
    case Chunked =>
      var pos := Find(data, CHUNK_END);
      if pos.Some? {
        return Says(true, info.value.(length := Sub64(pos.value, info.value.headerLength)));
      }
      return Says(false, info.value);
    case Unknown =>
      return Throws;
  }
}
