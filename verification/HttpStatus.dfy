/** What the status line of a response means, on its bytes: src/network/http_response.cpp, include/network/http_response.hpp. */
module HttpStatus {
  import opened Options
  import opened Texts
  import opened HttpResponse
  import H = HttpHelper

  // ---------------------------------------------------------------------------------------------
  // The status texts
  // ---------------------------------------------------------------------------------------------

  const NUMBERS := [200, 201, 204, 206, 400, 401, 403, 404, 409, 411, 416, 429, 500, 503, 503]

  function Number(s: string): int
    requires |s| >= 3
  {
    100 * (s[0] as int - '0' as int) + 10 * (s[1] as int - '0' as int) + (s[2] as int - '0' as int)
  }

  /** The known texts differ in their numbers, the two with 503 in their sixth character. */
  ghost predicate Numbered(text: string, i: nat) {
    i < |NUMBERS| && |text| >= 6 && Number(text) == NUMBERS[i] && (i == 13 ==> text[5] == 'e') && (i == 14 ==> text[5] == 'l')
  }

  lemma TextNumber(i: nat)
    requires i < |KNOWN_CODES|
    ensures Numbered(CodeText(KNOWN_CODES[i]), i)
  {
    if i < 5 { TextsBelow(i); } else if i < 10 { TextsBetween(i); } else { TextsAbove(i); }
  }

  lemma TextsBelow(i: nat)
    requires i < 5
    ensures Numbered(CodeText(KNOWN_CODES[i]), i)
  {
  }

  lemma TextsBetween(i: nat)
    requires 5 <= i < 10
    ensures Numbered(CodeText(KNOWN_CODES[i]), i)
  {
  }

  lemma TextsAbove(i: nat)
    requires 10 <= i < 15
    ensures Numbered(CodeText(KNOWN_CODES[i]), i)
  {
  }

  lemma NumbersApart(i: nat, j: nat)
    requires i < j < |NUMBERS| && j < 14
    ensures NUMBERS[i] < NUMBERS[j]
  {
  }

  lemma StartIsSame(text: string, known: string)
    requires StartsWith(text, known)
    ensures |text| >= |known| && forall k :: 0 <= k < |known| ==> text[k] == known[k]
  {
    assert text[0..|known|] == known;
  }

  lemma NamedNumber(text: string, i: nat)
    requires Names(text, i)
    ensures Numbered(text, i)
  {
    TextNumber(i);
    StartIsSame(text, CodeText(KNOWN_CODES[i]));
  }

  lemma NumberedOnce(text: string, i: nat, j: nat)
    requires Numbered(text, i) && Numbered(text, j)
    ensures i == j
  {
    var x, y := if i < j then i else j, if i < j then j else i;
    if x < y {
      if y < 14 { NumbersApart(x, y); } else if x < 13 { NumbersApart(x, 13); }
    }
  }

  /** No text starts with two of them. */
  lemma NamedOnce(text: string, i: nat, j: nat)
    requires Names(text, i) && Names(text, j)
    ensures i == j
  {
    NamedNumber(text, i);
    NamedNumber(text, j);
    NumberedOnce(text, i, j);
  }

  lemma LastHolds(p: nat -> bool, n: nat)
    ensures var last := LastWhere(p, n); last >= 0 ==> p(last)
  {
  }

  /** A code is recognised exactly by its text. */
  lemma CodeIs(text: string, i: nat)
    requires i < |KNOWN_CODES|
    ensures CodeOf(text) == KNOWN_CODES[i] <==> StartsWith(text, CodeText(KNOWN_CODES[i]))
  {
    var named := NameTest(text);
    if Names(text, i) {
      forall j: nat | i < j < |KNOWN_CODES|
        ensures !named(j)
      {
        if Names(text, j) { NamedOnce(text, i, j); }
      }
      assert IsLast(named, |KNOWN_CODES|, i);
      LastIsUnique(named, |KNOWN_CODES|, i);
    } else if CodeOf(text) == KNOWN_CODES[i] {
      var last := LastWhere(named, |KNOWN_CODES|);
      LastHolds(named, |KNOWN_CODES|);
      KnownIsNamed(i);
    }
  }

  lemma KnownIsNamed(i: nat)
    requires i < |KNOWN_CODES|
    ensures KNOWN_CODES[i] != UNKNOWN
  {
  }

  // ---------------------------------------------------------------------------------------------
  // The texts one by one
  // ---------------------------------------------------------------------------------------------

  lemma CodeNamed(text: string, code: Code, i: nat, known: string)
    requires i < |KNOWN_CODES| && KNOWN_CODES[i] == code && CodeText(code) == known
    ensures CodeOf(text) == code <==> StartsWith(text, known)
  {
    CodeIs(text, i);
  }

  lemma WholeTexts(text: string)
    ensures CodeOf(text) == OK_200 <==> StartsWith(text, "200 OK")
    ensures CodeOf(text) == CREATED_201 <==> StartsWith(text, "201 Created")
  {
    CodeNamed(text, OK_200, 0, "200 OK");
    CodeNamed(text, CREATED_201, 1, "201 Created");
  }

  lemma PartTexts(text: string)
    ensures CodeOf(text) == NO_CONTENT_204 <==> StartsWith(text, "204 No Content")
    ensures CodeOf(text) == PARTIAL_CONTENT_206 <==> StartsWith(text, "206 Partial Content")
  {
    CodeNamed(text, NO_CONTENT_204, 2, "204 No Content");
    CodeNamed(text, PARTIAL_CONTENT_206, 3, "206 Partial Content");
  }

  lemma RefusalTexts(text: string)
    ensures CodeOf(text) == BAD_REQUEST_400 <==> StartsWith(text, "400 Bad Request")
    ensures CodeOf(text) == UNAUTHORIZED_401 <==> StartsWith(text, "401 Unauthorized")
  {
    CodeNamed(text, BAD_REQUEST_400, 4, "400 Bad Request");
    CodeNamed(text, UNAUTHORIZED_401, 5, "401 Unauthorized");
  }

  lemma ObjectTexts(text: string)
    ensures CodeOf(text) == FORBIDDEN_403 <==> StartsWith(text, "403 Forbidden")
    ensures CodeOf(text) == NOT_FOUND_404 <==> StartsWith(text, "404 Not Found")
  {
    CodeNamed(text, FORBIDDEN_403, 6, "403 Forbidden");
    CodeNamed(text, NOT_FOUND_404, 7, "404 Not Found");
  }

  lemma StateTexts(text: string)
    ensures CodeOf(text) == CONFLICT_409 <==> StartsWith(text, "409 Conflict")
    ensures CodeOf(text) == LENGTH_REQUIRED_411 <==> StartsWith(text, "411 Length Required")
  {
    CodeNamed(text, CONFLICT_409, 8, "409 Conflict");
    CodeNamed(text, LENGTH_REQUIRED_411, 9, "411 Length Required");
  }

  lemma LimitTexts(text: string)
    ensures CodeOf(text) == RANGE_NOT_SATISFIABLE_416 <==> StartsWith(text, "416 Range Not Satisfiable")
    ensures CodeOf(text) == TOO_MANY_REQUESTS_429 <==> StartsWith(text, "429 Too Many Requests")
  {
    CodeNamed(text, RANGE_NOT_SATISFIABLE_416, 10, "416 Range Not Satisfiable");
    CodeNamed(text, TOO_MANY_REQUESTS_429, 11, "429 Too Many Requests");
  }

  lemma ServerTexts(text: string)
    ensures CodeOf(text) == INTERNAL_SERVER_ERROR_500 <==> StartsWith(text, "500 Internal Server Error")
  {
    CodeNamed(text, INTERNAL_SERVER_ERROR_500, 12, "500 Internal Server Error");
  }

  lemma BusyTexts(text: string)
    ensures CodeOf(text) == SERVICE_UNAVAILABLE_503 <==> StartsWith(text, "503 Service Unavailable")
    ensures CodeOf(text) == SLOW_DOWN_503 <==> StartsWith(text, "503 Slow Down")
  {
    CodeNamed(text, SERVICE_UNAVAILABLE_503, 13, "503 Service Unavailable");
    CodeNamed(text, SLOW_DOWN_503, 14, "503 Slow Down");
  }

  // ---------------------------------------------------------------------------------------------
  // On the bytes received
  // ---------------------------------------------------------------------------------------------

  /** What stands behind the version and its space. */
  function StatusText(data: string): string {
    if |data| < 9 then "" else data[9..]
  }

  /** The status text means success. */
  predicate GoodStatus(data: string) {
    var s := StatusText(data);
    StartsWith(s, "200 OK") || StartsWith(s, "201 Created") || StartsWith(s, "204 No Content") || StartsWith(s, "206 Partial Content")
  }

  lemma {:induction false} CodeStays(data: string, response: Response)
    requires ParseLines(data, Some(response)).Parsed?
    ensures ParseLines(data, Some(response)).response.code == response.code
    decreases |data|
  {
    var line, rest := FirstSplit(data);
    SplitParsed(OneLine, data, line, rest, Some(response));
    if line != "" {
      CodeStays(rest, HeaderLine(line, response).value);
    }
  }

  /** The code is that of the status line. */
  lemma CodeOfLine(data: string) returns (line: string)
    requires ParseLines(data, None).Parsed?
    ensures |line| >= 9 && |line| + 2 <= |data| && data[..|line|] == line && OccursAt(data, CRLF, |line|)
    ensures ParseLines(data, None).response.code == CodeOf(line[9..])
  {
    var rest;
    line, rest := FirstSplit(data);
    SplitParsed(OneLine, data, line, rest, None);
    FindSpec(data, CRLF);
    CodeStays(rest, StatusLine(line).value);
  }

  /** A text without a carriage return stands at the front of a line, or nowhere at that place. */
  lemma StartsLine(data: string, line: string, known: string)
    requires 9 <= |line| && |line| + 2 <= |data| && data[..|line|] == line && OccursAt(data, CRLF, |line|) && '\r' !in known
    ensures StartsWith(line[9..], known) <==> StartsWith(StatusText(data), known)
  {
    var s, t := line[9..], data[9..];
    assert t[..|s|] == s;
    assert data[|line|..|line| + 2][0] == '\r';
    if StartsWith(s, known) {
      StartIsSame(s, known);
      assert t[0..|known|] == s[0..|known|];
    }
    if StartsWith(t, known) {
      EndsBeforeReturn(t, known, |s|);
      assert t[0..|known|] == s[0..|known|];
    }
  }

  lemma EndsBeforeReturn(text: string, known: string, n: nat)
    requires StartsWith(text, known) && '\r' !in known && n < |text| && text[n] == '\r'
    ensures |known| <= n
  {
    StartIsSame(text, known);
  }

  /** A response that is understood means success exactly when its status text starts with one of four, and has no content
      exactly for one of them. */
  lemma SuccessOnBytes(data: string)
    requires ParseLines(data, None).Parsed?
    ensures CheckSuccess(ParseLines(data, None).response.code) <==> GoodStatus(data)
    ensures WithoutContent(ParseLines(data, None).response.code) <==> StartsWith(StatusText(data), "204 No Content")
  {
    var line := CodeOfLine(data);
    WholeOnLine(data, line);
    PartOnLine(data, line);
  }

  /** The line is at the front of the data. */
  ghost predicate LeadingLine(data: string, line: string) {
    9 <= |line| && |line| + 2 <= |data| && data[..|line|] == line && OccursAt(data, CRLF, |line|)
  }

  lemma WholeOnLine(data: string, line: string)
    requires LeadingLine(data, line)
    ensures CodeOf(line[9..]) == OK_200 <==> StartsWith(StatusText(data), "200 OK")
    ensures CodeOf(line[9..]) == CREATED_201 <==> StartsWith(StatusText(data), "201 Created")
  {
    WholeTexts(line[9..]);
    StartsLine(data, line, "200 OK");
    StartsLine(data, line, "201 Created");
  }

  lemma PartOnLine(data: string, line: string)
    requires LeadingLine(data, line)
    ensures CodeOf(line[9..]) == NO_CONTENT_204 <==> StartsWith(StatusText(data), "204 No Content")
    ensures CodeOf(line[9..]) == PARTIAL_CONTENT_206 <==> StartsWith(StatusText(data), "206 Partial Content")
  {
    PartTexts(line[9..]);
    StartsLine(data, line, "204 No Content");
    StartsLine(data, line, "206 Partial Content");
  }

  /** Said of what `finished` reports. */
  lemma FinishedStatus(data: string)
    requires H.Finished(data, None).Says?
    ensures ParseLines(data, None).Parsed?
    ensures CheckSuccess(H.Finished(data, None).info.response.code) <==> GoodStatus(data)
  {
    SuccessOnBytes(data);
  }
}
