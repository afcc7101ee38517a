/** Responses with a length, by the text of their header: src/network/http_helper.cpp, against section 6.2 of RFC 9112. */
module HttpLength {
  import opened Options
  import opened Words
  import opened Texts
  import opened Dictionary
  import opened HttpResponse
  import opened HttpHelper
  import opened HttpFraming
  import opened HttpFramingExamples
  import opened HttpStatus
  import opened HttpWire
  import T = HttpRequestRoundTrip
  import P = ConnectionPool

  // ---------------------------------------------------------------------------------------------
  // Numbers
  // ---------------------------------------------------------------------------------------------

  predicate Digits(s: string) {
    forall i :: 0 <= i < |s| ==> '0' <= s[i] <= '9'
  }

  /** Digits are read one after the other. */
  lemma {:induction false} LeadingDigits(a: string, b: string, value: nat)
    requires Digits(a)
    ensures LeadingNumber(a + b, value) == LeadingNumber(b, LeadingNumber(a, value))
    decreases |a|
  {
    if a == "" {
      assert a + b == b;
    } else {
      assert (a + b)[1..] == a[1..] + b;
      LeadingDigits(a[1..], b, 10 * value + (a[0] - '0') as nat);
    }
  }

  lemma OneDigit(c: char, value: nat, rest: string)
    requires '0' <= c <= '9' && (rest == "" || !('0' <= rest[0] <= '9'))
    ensures LeadingNumber([c] + rest, value) == 10 * value + (c - '0') as nat
  {
    assert ([c] + rest)[1..] == rest;
  }

  lemma {:induction false} LeadingDecimal(n: nat, rest: string)
    requires rest == "" || !('0' <= rest[0] <= '9')
    ensures LeadingNumber(P.Decimal(n) + rest, 0) == n
    decreases n
  {
    var front := if n < 10 then "" else P.Decimal(n / 10);
    var c := ('0' as int + n % 10) as char;
    assert P.Decimal(n) + rest == front + ([c] + rest);
    LeadingDigits(front, [c] + rest, 0);
    OneDigit(c, if n < 10 then 0 else n / 10, rest);
    if n >= 10 {
      LeadingDecimal(n / 10, "");
      assert front + "" == front;
    }
  }

  /** The number a text denotes is read, whatever stands behind its digits; one that does not fit 64 bits is read as zero. */
  lemma NumberRead(n: nat, rest: string)
    requires rest == "" || !('0' <= rest[0] <= '9')
    ensures FromChars(P.Decimal(n) + rest) == if n < WORD then n else 0
  {
    LeadingDecimal(n, rest);
  }

  // ---------------------------------------------------------------------------------------------
  // The header
  // ---------------------------------------------------------------------------------------------

  function FirstLine(http11: bool, status: string): string {
    (if http11 then "HTTP/1.1 " else "HTTP/1.0 ") + status
  }

  /** Status line, fields and the blank line. */
  function HeaderText(http11: bool, status: string, fields: seq<Entry>): string {
    FirstLine(http11, status) + "\r\n" + FieldLines(fields) + "\r\n"
  }

  /** A name has no colon, and neither it nor its value a line end. */
  ghost predicate FieldOk(e: Entry) {
    ':' !in e.0 && T.NoCrlf(e.0) && T.NoCrlf(e.1)
  }

  ghost predicate FieldsOk(fields: seq<Entry>) {
    forall e :: e in fields ==> FieldOk(e)
  }

  function EmplaceAll(fields: seq<Entry>, done: seq<Entry>): seq<Entry>
    decreases |fields|
  {
    if fields == [] then done else EmplaceAll(fields[1..], Emplace(done, fields[0].0, fields[0].1))
  }

  /** The first value for a name is the one that is kept. */
  lemma {:induction false} FirstStays(fields: seq<Entry>, done: seq<Entry>, k: string)
    requires Sorted(done)
    ensures Get(EmplaceAll(fields, done), k) == if Get(done, k).Some? then Get(done, k) else Get(fields, k)
    decreases |fields|
  {
    if fields != [] {
      EmplaceGet(done, fields[0].0, fields[0].1, k);
      FirstStays(fields[1..], Emplace(done, fields[0].0, fields[0].1), k);
    }
  }

  lemma {:induction false} GetFirst(fields: seq<Entry>, k: string, v: string)
    ensures Get(fields, k) == Some(v) <==> FirstField(fields, k, v)
  {
    if fields != [] {
      GetFirst(fields[1..], k, v);
      FirstOfRest(fields, k, v);
    }
  }

  lemma FirstOfRest(fields: seq<Entry>, k: string, v: string)
    requires fields != []
    ensures FirstField(fields, k, v) <==> fields[0] == (k, v) || (fields[0].0 != k && FirstField(fields[1..], k, v))
  {
    var rest := fields[1..];
    assert forall i :: 0 <= i < |rest| ==> rest[i] == fields[i + 1];
    if FirstField(rest, k, v) {
      var i :| 0 <= i < |rest| && rest[i] == (k, v) && forall j :: 0 <= j < i ==> rest[j].0 != k;
      assert fields[i + 1] == (k, v) && forall j :: 1 <= j < i + 1 ==> fields[j] == rest[j - 1];
    }
    if FirstField(fields, k, v) {
      var i :| 0 <= i < |fields| && fields[i] == (k, v) && forall j :: 0 <= j < i ==> fields[j].0 != k;
      if i > 0 { assert rest[i - 1] == (k, v) && forall j :: 0 <= j < i - 1 ==> rest[j] == fields[j + 1]; }
    }
  }

  lemma LineOfField(e: Entry, r: Response)
    requires FieldOk(e)
    ensures T.NoCrlf(e.0 + ": " + e.1) && HeaderLine(e.0 + ": " + e.1, r) == Some(r.(headers := Emplace(r.headers, e.0, e.1)))
  {
    FieldParsed(e.0, e.1, r);
    T.ShortIsClean(": ");
    T.NoCrlfJoin(e.0, ": ");
    T.NoCrlfJoin(e.0 + ": ", e.1);
  }

  lemma NextLine(line: string, rest: string, before: Option<Response>)
    requires T.NoCrlf(line) && line != "" && OneLine(line, before).Some?
    ensures ParseLines(line + CRLF + rest, before) == Later(ParseLines(rest, OneLine(line, before)), |line| + 2)
  {
    T.LineEnds(line, rest);
    SplitParsed(OneLine, line + CRLF + rest, line, rest, before);
  }

  ghost predicate FieldsRead(fields: seq<Entry>, r: Response) {
    ParseLines(FieldLines(fields) + CRLF, Some(r)) ==
    Parsed(r.(headers := EmplaceAll(fields, r.headers)), |FieldLines(fields)| + 2)
  }

  lemma {:induction false} AllFieldsRead(fields: seq<Entry>, r: Response)
    requires FieldsOk(fields)
    ensures FieldsRead(fields, r)
    decreases |fields|
  {
    if fields == [] {
      BlankRead(r);
      assert FieldLines(fields) + CRLF == CRLF;
    } else {
      assert fields[0] in fields && forall e :: e in fields[1..] ==> e in fields;
      AllFieldsRead(fields[1..], r.(headers := Emplace(r.headers, fields[0].0, fields[0].1)));
      OneFieldRead(fields, r);
    }
  }

  lemma OneFieldRead(fields: seq<Entry>, r: Response)
    requires fields != [] && FieldOk(fields[0])
    requires FieldsRead(fields[1..], r.(headers := Emplace(r.headers, fields[0].0, fields[0].1)))
    ensures FieldsRead(fields, r)
  {
    var line, rest := fields[0].0 + ": " + fields[0].1, FieldLines(fields[1..]);
    LineOfField(fields[0], r);
    NextLine(line, rest + CRLF, Some(r));
    FieldLinesFirst(fields);
    assert FieldLine(fields[0]) == line + CRLF;
    assert FieldLines(fields) + CRLF == line + CRLF + (rest + CRLF);
  }

  lemma StatusRead(http11: bool, status: string)
    requires T.NoCrlf(status)
    ensures var line := FirstLine(http11, status);
            T.NoCrlf(line) && line != "" && StatusLine(line) == Some(Response([], CodeOf(status), http11))
  {
    var line := FirstLine(http11, status);
    VersionClean(http11, status);
    assert line[9..] == status && line[0..8] == if http11 then "HTTP/1.1" else "HTTP/1.0";
  }

  lemma VersionClean(http11: bool, status: string)
    requires T.NoCrlf(status)
    ensures T.NoCrlf(FirstLine(http11, status))
  {
    T.ShortIsClean("HTTP/1.1 ");
    T.ShortIsClean("HTTP/1.0 ");
    T.NoCrlfJoin("HTTP/1.1 ", status);
    T.NoCrlfJoin("HTTP/1.0 ", status);
  }

  /** The whole header is understood: its status line, and for each name the first value. */
  lemma HeaderRead(http11: bool, status: string, fields: seq<Entry>)
    requires FieldsOk(fields) && T.NoCrlf(status)
    ensures ParseLines(HeaderText(http11, status, fields), None) ==
            Parsed(Response(EmplaceAll(fields, []), CodeOf(status), http11), |HeaderText(http11, status, fields)|)
  {
    var line, rest := FirstLine(http11, status), FieldLines(fields) + CRLF;
    StatusRead(http11, status);
    AllFieldsRead(fields, Response([], CodeOf(status), http11));
    NextLine(line, rest, None);
    T.TextInTwo(line, FieldLines(fields));
  }

  // ---------------------------------------------------------------------------------------------
  // The end of the response
  // ---------------------------------------------------------------------------------------------

  /** What `detect` sees in a header with a length and no chunks. */
  lemma LengthSeen(http11: bool, status: string, fields: seq<Entry>, value: string, body: string)
    requires FieldsOk(fields) && T.NoCrlf(status) && !StartsWith(status, "204 No Content")
    requires FirstField(fields, "Content-Length", value) && !FirstField(fields, "Transfer-Encoding", "chunked")
    ensures var header := HeaderText(http11, status, fields);
            && ParseLines(header + body, None).Parsed? && HeaderBytes(header + body) == |header|
            && Detect(header + body) ==
               Some(Info(ParseLines(header + body, None).response, FromChars(value), |header| % WORD32, ContentLength))
            && !WithoutContent(Detect(header + body).value.response.code)
  {
    var header := HeaderText(http11, status, fields);
    HeaderRead(http11, status, fields);
    ParseStable(OneLine, header, None, body);
    HeaderLengthExact(header + body);
    PartTexts(status);
    FirstStays(fields, [], "Content-Length");
    FirstStays(fields, [], "Transfer-Encoding");
    GetFirst(fields, "Content-Length", value);
    GetFirst(fields, "Transfer-Encoding", "chunked");
  }

  /** A response whose header says that its body has `n` bytes is complete exactly when `n` bytes have arrived behind the blank
      line, or when header and body together reach 2^64; a number that does not fit 64 bits counts as zero. */
  lemma LengthOnWire(http11: bool, status: string, fields: seq<Entry>, n: nat, unit: string, body: string)
    requires FieldsOk(fields) && T.NoCrlf(status) && !StartsWith(status, "204 No Content")
    requires FirstField(fields, "Content-Length", P.Decimal(n) + unit) && (unit == "" || !('0' <= unit[0] <= '9'))
    requires !FirstField(fields, "Transfer-Encoding", "chunked") && |HeaderText(http11, status, fields)| < WORD32
    ensures var header := HeaderText(http11, status, fields);
            var v := Finished(header + body, None);
            && v.Says? && v.info.headerLength == |header| && v.info.length == (if n < WORD then n else 0)
            && (v.done <==> |body| >= n || |header| + n >= WORD)
  {
    LengthSeen(http11, status, fields, P.Decimal(n) + unit, body);
    NumberRead(n, unit);
    LengthJudged(HeaderText(http11, status, fields) + body, |HeaderText(http11, status, fields)|, if n < WORD then n else 0);
  }

  lemma LengthJudged(data: string, header: nat, length: nat)
    requires ParseLines(data, None).Parsed? && HeaderBytes(data) == header < WORD32 && Detect(data).Some?
    requires var info := Detect(data).value;
             info.length == length && info.encoding == ContentLength && info.headerLength == header && !WithoutContent(info.response.code)
    ensures var v := Finished(data, None);
            && v.Says? && v.info.headerLength == header && v.info.length == length
            && (v.done <==> |data| >= header + length || header + length >= WORD)
  {
    LengthVerdict(data);
  }

  /** A response without content is complete with its header. */
  lemma NoContentOnWire(http11: bool, status: string, fields: seq<Entry>, body: string)
    requires FieldsOk(fields) && T.NoCrlf(status) && StartsWith(status, "204 No Content")
    ensures var v := Finished(HeaderText(http11, status, fields) + body, None); v.Says? && v.done
  {
    var header := HeaderText(http11, status, fields);
    HeaderRead(http11, status, fields);
    ParseStable(OneLine, header, None, body);
    PartTexts(status);
  }

  lemma ChunksSeen(http11: bool, status: string, fields: seq<Entry>, body: string)
    requires FieldsOk(fields) && T.NoCrlf(status) && !StartsWith(status, "204 No Content")
    requires FirstField(fields, "Transfer-Encoding", "chunked")
    ensures var seen := Detect(HeaderText(http11, status, fields) + body);
            seen.Some? && seen.value.encoding == Chunked && !WithoutContent(seen.value.response.code)
  {
    var header := HeaderText(http11, status, fields);
    HeaderRead(http11, status, fields);
    ParseStable(OneLine, header, None, body);
    PartTexts(status);
    FirstStays(fields, [], "Transfer-Encoding");
    GetFirst(fields, "Transfer-Encoding", "chunked");
  }

  /** A chunked encoding overrides a length: complete exactly when the terminator occurs among the bytes. */
  lemma ChunksOnWire(http11: bool, status: string, fields: seq<Entry>, body: string)
    requires FieldsOk(fields) && T.NoCrlf(status) && !StartsWith(status, "204 No Content")
    requires FirstField(fields, "Transfer-Encoding", "chunked")
    ensures var data := HeaderText(http11, status, fields) + body;
            var v := Finished(data, None);
            v.Says? && (v.done <==> exists i: nat :: OccursAt(data, "0\r\n\r\n", i))
  {
    var data := HeaderText(http11, status, fields) + body;
    ChunksSeen(http11, status, fields, body);
    FindSpec(data, CHUNK_END);
  }
}
