/** Chunked responses for which the search for the terminator gives a wrong answer: src/network/http_helper.cpp:104-115. */
module HttpFramingExamples {
  import opened Options
  import opened Texts
  import opened Dictionary
  import opened Words
  import opened HttpResponse
  import opened HttpHelper
  import opened HttpFraming

  const STATUS := "HTTP/1.1 200 OK"
  const TE_FIELD := "Transfer-Encoding: chunked"

  lemma LineSplits(line: string, rest: string)
    requires OneLineText(line)
    ensures Splits(line + CRLF + rest, line, rest)
  {
    var s := line + CRLF + rest;
    assert s[|line|..|line| + 2] == CRLF;
    forall j: nat | j < |line|
      ensures !OccursAt(s, CRLF, j)
    {
      if j + 2 <= |s| { assert s[j..j + 2][0] == s[j] == line[j]; }
    }
    FindIs(s, CRLF, |line|);
  }

  lemma StatusParsed()
    ensures var r := StatusLine(STATUS); r.Some? && r.value.headers == [] && !WithoutContent(r.value.code)
  {
    var text := STATUS[9..];
    assert STATUS[0..8] == "HTTP/1.1";
    assert text[2] != CodeText(KNOWN_CODES[2])[2];
    assert !Names(text, 2);
  }

  /** A field whose name and value have no colon. */
  lemma FieldParsed(name: string, value: string, r: Response)
    requires forall i :: 0 <= i < |name| ==> name[i] != ':'
    ensures HeaderLine(name + ": " + value, r) == Some(r.(headers := Emplace(r.headers, name, value)))
  {
    var line := name + ": " + value;
    assert line[|name|..|name| + 2] == ": ";
    forall j: nat | j < |name|
      ensures !OccursAt(line, ": ", j)
    {
      assert line[j..j + 2][0] == name[j];
    }
    FindIs(line, ": ", |name|);
    assert line[..|name|] == name && line[|name| + 2..] == value;
  }

  lemma LineRead(line: string, rest: string, before: Option<Response>)
    requires OneLineText(line) && line != "" && OneLine(line, before).Some?
    ensures ParseLines(line + CRLF + rest, before) == Later(ParseLines(rest, OneLine(line, before)), |line| + 2)
  {
    LineSplits(line, rest);
    SplitParsed(OneLine, line + CRLF + rest, line, rest, before);
  }

  lemma BlankRead(r: Response)
    ensures ParseLines(CRLF, Some(r)) == Parsed(r, 2)
  {
    LineSplits("", "");
    assert "" + CRLF + "" == CRLF;
    SplitParsed(OneLine, CRLF, "", "", Some(r));
  }

  /** A status line and two fields. */
  lemma TwoFieldsRead(status: string, one: string, other: string, r: Response, s: Response, t: Response)
    requires OneLineText(status) && status != "" && StatusLine(status) == Some(r)
    requires OneLineText(one) && one != "" && HeaderLine(one, r) == Some(s)
    requires OneLineText(other) && other != "" && HeaderLine(other, s) == Some(t)
    ensures ParseLines(status + CRLF + (one + CRLF + CRLF), None) == Parsed(s, |status| + |one| + 6)
    ensures ParseLines(status + CRLF + (one + CRLF + (other + CRLF + CRLF)), None) == Parsed(t, |status| + |one| + |other| + 8)
  {
    BlankRead(s);
    BlankRead(t);
    LineRead(other, CRLF, Some(s));
    LineRead(one, CRLF, Some(r));
    LineRead(one, other + CRLF + CRLF, Some(r));
    LineRead(status, one + CRLF + CRLF, None);
    LineRead(status, one + CRLF + (other + CRLF + CRLF), None);
  }

  const AGE_FIELD := "Age: 0"

  function PlainHeader(): string {
    STATUS + CRLF + (TE_FIELD + CRLF + CRLF)
  }

  function ZeroHeader(): string {
    STATUS + CRLF + (TE_FIELD + CRLF + (AGE_FIELD + CRLF + CRLF))
  }

  lemma HeadersRead(status: string, one: string, other: string, r: Response, k: string, v: string, age: string, zero: string)
    returns (s: Response, t: Response)
    requires OneLineText(status) && status != "" && StatusLine(status) == Some(r)
    requires IsField(one, k, v) && IsField(other, age, zero)
    ensures s == r.(headers := Emplace(r.headers, k, v)) && t == s.(headers := Emplace(s.headers, age, zero))
    ensures ParseLines(status + CRLF + (one + CRLF + CRLF), None) == Parsed(s, |status| + |one| + 6)
    ensures ParseLines(status + CRLF + (one + CRLF + (other + CRLF + CRLF)), None) == Parsed(t, |status| + |one| + |other| + 8)
  {
    FieldParsed(k, v, r);
    s := HeaderLine(one, r).value;
    FieldParsed(age, zero, s);
    t := HeaderLine(other, s).value;
    TwoFieldsRead(status, one, other, r, s, t);
  }

  predicate IsField(line: string, k: string, v: string) {
    OneLineText(line) && line == k + ": " + v && forall i :: 0 <= i < |k| ==> k[i] != ':'
  }

  lemma ChunkedHeadersRead(status: string, one: string, other: string, r: Response, v: string, age: string, zero: string)
    requires OneLineText(status) && status != "" && StatusLine(status) == Some(r)
    requires IsField(one, TRANSFER_ENCODING, v) && IsField(other, age, zero)
    requires r.headers == [] && !WithoutContent(r.code) && v == "chunked"
    ensures IsChunkedHeader(status + CRLF + (one + CRLF + CRLF))
    ensures IsChunkedHeader(status + CRLF + (one + CRLF + (other + CRLF + CRLF)))
  {
    var s, t := HeadersRead(status, one, other, r, TRANSFER_ENCODING, v, age, zero);
    assert s.headers == [(TRANSFER_ENCODING, v)];
    EmplaceGet(s.headers, age, zero, TRANSFER_ENCODING);
    ChunkedHeaderRead(status + CRLF + (one + CRLF + CRLF), s);
    ChunkedHeaderRead(status + CRLF + (one + CRLF + (other + CRLF + CRLF)), t);
  }

  lemma FieldsAreLines()
    ensures IsField(TE_FIELD, TRANSFER_ENCODING, "chunked") && IsField(AGE_FIELD, "Age", "0")
    ensures OneLineText(STATUS) && STATUS != ""
  {
  }

  lemma HeadersDetected()
    ensures IsChunkedHeader(PlainHeader()) && IsChunkedHeader(ZeroHeader())
  {
    StatusParsed();
    FieldsAreLines();
    ChunkedHeadersRead(STATUS, TE_FIELD, AGE_FIELD, StatusLine(STATUS).value, "chunked", "Age", "0");
  }

  lemma HeadersEnd()
    ensures !ZeroInHeader(PlainHeader()) && ZeroInHeader(ZeroHeader())
    ensures 0 < |PlainHeader()| < 65536 && |ZeroHeader()| < WORD32
  {
    assert |PlainHeader()| == |STATUS| + |TE_FIELD| + 6;
    assert PlainHeader()[|PlainHeader()| - 5] == TE_FIELD[|TE_FIELD| - 1];
    assert |ZeroHeader()| == |STATUS| + |TE_FIELD| + |AGE_FIELD| + 8;
    assert ZeroHeader()[|ZeroHeader()| - 5] == AGE_FIELD[|AGE_FIELD| - 1];
  }

  lemma ChunkedHeaderRead(header: string, r: Response)
    requires ParseLines(header, None) == Parsed(r, |header|)
    requires Get(r.headers, TRANSFER_ENCODING) == Some("chunked") && !WithoutContent(r.code)
    ensures IsChunkedHeader(header)
  {
  }

  // ---------------------------------------------------------------------------------------------
  // The examples
  // ---------------------------------------------------------------------------------------------

  const PLAIN_END := End("0", "", [])

  /** Behind no header is a trailer with this field found, nor this extension on the last chunk. */
  lemma NotFoundBehind(header: string, e: End)
    requires IsChunkedHeader(header) && !ZeroInHeader(header)
    requires e == End("0", "", ["X: y"]) || e == End("0", ";x=y", [])
    ensures ChunkedParts(header, [], e) && !Done(ResponseText(header, [], e))
  {
    assert EndLines(e)[|e.fields|][|EndLines(e)[|e.fields|]| - 1] == 'y';
    ChunkedExact(header, [], e);
  }

  /** A header that arrives in two pieces, cut behind its first line, is a failure; in one piece it is none. */
  lemma HeaderInTwoFails()
    ensures var one, other := STATUS + CRLF, TE_FIELD + CRLF + CRLF;
            && one + other == PlainHeader()
            && FeedAll(Waiting("", None), [one, other]).Failed?
            && FeedAll(Waiting("", None), [one + other]).Waiting?
  {
    HeadersDetected();
    HeadersEnd();
    assert STATUS + CRLF + (TE_FIELD + CRLF + CRLF) == PlainHeader();
    CutHeaderFails(STATUS + CRLF, TE_FIELD + CRLF + CRLF);
  }

  lemma CutHeaderFails(one: string, other: string)
    requires IsChunkedHeader(one + other) && !ZeroInHeader(one + other) && other != ""
    ensures FeedAll(Waiting("", None), [one, other]).Failed?
    ensures FeedAll(Waiting("", None), [one + other]).Waiting?
  {
    assert [one, other][1..] == [other] && [other][1..] == [] && [one + other][1..] == [];
    assert Joined([one, other]) == one + Joined([other]) == one + other;
    assert Joined([one + other]) == one + other;
    SplitVerdict([one, other]);
    SplitVerdict([one + other]);
    HeaderAlone(one + other);
  }

  /** A header that announces chunks and does not end in a zero is not yet a complete response. */
  lemma HeaderAlone(header: string)
    requires IsChunkedHeader(header) && !ZeroInHeader(header)
    ensures var v := Finished(header, None); v.Says? && !v.done
  {
    assert header + "" == header;
    TerminatorInHeader(header);
    ChunkedDecision(header, "");
  }

  /** A response with a trailer field is never found complete, and neither is one with an extension on the last chunk. */
  lemma TrailerNeverFound()
    ensures var e := End("0", "", ["X: y"]);
            ChunkedParts(PlainHeader(), [], e) && !Done(ResponseText(PlainHeader(), [], e))
    ensures var e := End("0", ";x=y", []);
            ChunkedParts(PlainHeader(), [], e) && !Done(ResponseText(PlainHeader(), [], e))
  {
    HeadersDetected();
    HeadersEnd();
    NotFoundBehind(PlainHeader(), End("0", "", ["X: y"]));
    NotFoundBehind(PlainHeader(), End("0", ";x=y", []));
  }

  /** A header whose last field ends in a zero: no byte of the body is waited for. */
  lemma ZeroHeaderExample(more: string)
    ensures var v := Finished(ZeroHeader() + more, None); v.Says? && v.done && v.info.length == WORD - 5
  {
    HeadersDetected();
    HeadersEnd();
    ZeroBeforeBlankLine(ZeroHeader(), more);
  }

  lemma TerminatorChunk(c: Chunk)
    requires c == Chunk("5", "", CHUNK_END)
    ensures IsChunk(c) && !Clean(c)
  {
    assert HexValue(c.size) == 5 by { assert c.size[..0] == ""; }
    assert OccursAt(c.data, CHUNK_END, 0);
    FindIs(c.data, CHUNK_END, 0);
  }

  lemma UncleanBehind(header: string, c: Chunk)
    requires IsChunkedHeader(header) && IsChunk(c) && !Clean(c)
    ensures ChunkedParts(header, [c], PLAIN_END) && DoneEarly(ResponseText(header, [c], PLAIN_END), |header|)
  {
    assert c in [c];
    ChunkedExact(header, [c], PLAIN_END);
  }

  /** A chunk that holds the terminator as data ends the response before its end. */
  lemma ChunkImitatesEnd()
    ensures var c, h := Chunk("5", "", CHUNK_END), PlainHeader();
            ChunkedParts(h, [c], PLAIN_END) && DoneEarly(ResponseText(h, [c], PLAIN_END), |h|)
  {
    HeadersDetected();
    TerminatorChunk(Chunk("5", "", CHUNK_END));
    UncleanBehind(PlainHeader(), Chunk("5", "", CHUNK_END));
  }
}
