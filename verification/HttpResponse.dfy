/** Parsing an HTTP response header: src/network/http_response.cpp. */
module HttpResponse {
  import opened Options
  import opened Texts
  import opened Dictionary

  const CRLF := "\r\n"
  const HEADER_END := "\r\n\r\n"

  datatype Code =
    | OK_200 | CREATED_201 | NO_CONTENT_204 | PARTIAL_CONTENT_206 | BAD_REQUEST_400 | UNAUTHORIZED_401
    | FORBIDDEN_403 | NOT_FOUND_404 | CONFLICT_409 | LENGTH_REQUIRED_411 | RANGE_NOT_SATISFIABLE_416
    | TOO_MANY_REQUESTS_429 | INTERNAL_SERVER_ERROR_500 | SERVICE_UNAVAILABLE_503 | SLOW_DOWN_503 | UNKNOWN

  /** The codes the parser tries, in order. */
  const KNOWN_CODES := [
    OK_200, CREATED_201, NO_CONTENT_204, PARTIAL_CONTENT_206, BAD_REQUEST_400, UNAUTHORIZED_401,
    FORBIDDEN_403, NOT_FOUND_404, CONFLICT_409, LENGTH_REQUIRED_411, RANGE_NOT_SATISFIABLE_416,
    TOO_MANY_REQUESTS_429, INTERNAL_SERVER_ERROR_500, SERVICE_UNAVAILABLE_503, SLOW_DOWN_503]

  function CodeText(c: Code): string {
    match c
    case OK_200 => "200 OK"
    case CREATED_201 => "201 Created"
    case NO_CONTENT_204 => "204 No Content"
    case PARTIAL_CONTENT_206 => "206 Partial Content"
    case BAD_REQUEST_400 => "400 Bad Request"
    case UNAUTHORIZED_401 => "401 Unauthorized"
    case FORBIDDEN_403 => "403 Forbidden"
    case NOT_FOUND_404 => "404 Not Found"
    case CONFLICT_409 => "409 Conflict"
    case LENGTH_REQUIRED_411 => "411 Length Required"
    case RANGE_NOT_SATISFIABLE_416 => "416 Range Not Satisfiable"
    case TOO_MANY_REQUESTS_429 => "429 Too Many Requests"
    case INTERNAL_SERVER_ERROR_500 => "500 Internal Server Error"
    case SERVICE_UNAVAILABLE_503 => "503 Service Unavailable"
    case SLOW_DOWN_503 => "503 Slow Down"
    case UNKNOWN => "UNKNOWN"
  }

  predicate CheckSuccess(c: Code) {
    c == OK_200 || c == CREATED_201 || c == NO_CONTENT_204 || c == PARTIAL_CONTENT_206
  }

  predicate WithoutContent(c: Code) {
    c == NO_CONTENT_204
  }

  datatype Response = Response(headers: seq<Entry>, code: Code, http11: bool)

  /** The result of the parser: an exception, or the response and the number of bytes up to and with the blank line. */
  datatype Parse = Bad | Parsed(response: Response, used: nat)

  // ---------------------------------------------------------------------------------------------
  // Specification
  // ---------------------------------------------------------------------------------------------

  /** The known code number `i` starts the line. */
  predicate Names(line: string, i: nat) {
    i < |KNOWN_CODES| && StartsWith(line, CodeText(KNOWN_CODES[i]))
  }

  /** `last` is the last number below `n` with the property, -1 if there is none. */
  ghost predicate IsLast(p: nat -> bool, n: nat, last: int) {
    -1 <= last < n && (last >= 0 ==> p(last)) && forall j: nat :: last < j < n ==> !p(j)
  }

  ghost function LastWhere(p: nat -> bool, n: nat): (last: int)
    ensures -1 <= last < n
  {
    if i: nat :| IsLast(p, n, i) then i else -1
  }

  lemma LastIsUnique(p: nat -> bool, n: nat, last: int)
    requires IsLast(p, n, last)
    ensures LastWhere(p, n) == last
  {
    if last >= 0 { assert IsLast(p, n, last as nat); }
  }

  ghost function NameTest(line: string): nat -> bool {
    (k: nat) => Names(line, k)
  }

  /** The last known code that starts the line. */
  ghost function CodeOf(line: string): Code {
    var i := LastWhere(NameTest(line), |KNOWN_CODES|);
    if i == -1 then UNKNOWN else KNOWN_CODES[i]
  }

  /** The status line; None for every exception it can cause. */
  ghost function StatusLine(line: string): Option<Response> {
    if !StartsWith(line, "HTTP/1.0") && !StartsWith(line, "HTTP/1.1") then None
    else if |line| < 9 then None
    else Some(Response([], CodeOf(line[9..]), !StartsWith(line, "HTTP/1.0")))
  }

  function HeaderLine(line: string, response: Response): Option<Response> {
    match Find(line, ": ")
    case None => None
    case Some(k) => Some(response.(headers := Emplace(response.headers, line[..k], line[k + 2..])))
  }

  ghost function OneLine(line: string, response: Option<Response>): Option<Response> {
    if response.None? then StatusLine(line) else HeaderLine(line, response.value)
  }

  /** What a line means, after what the lines before it gave; None is an exception. */
  type Reader = (string, Option<Response>) -> Option<Response>

  /** The lines of a header up to the blank line; `response` is what the lines before it gave, None
      before the status line. */
  ghost function ParseWith(read: Reader, data: string, response: Option<Response>): (r: Parse)
    ensures r.Parsed? ==> 2 <= r.used <= |data|
    decreases |data|
  {
    match Find(data, CRLF)
    case None => Bad
    case Some(pos) => AfterLine(read, data[..pos], data[pos + 2..], response)
  }

  /** What the parser gives once it has split off one line. */
  ghost function AfterLine(read: Reader, line: string, rest: string, response: Option<Response>): (r: Parse)
    ensures r.Parsed? ==> 2 <= r.used <= |line| + 2 + |rest|
    decreases |rest| + 1
  {
    if line == "" then
      match response case None => Bad case Some(r) => Parsed(r, 2)
    else
      match read(line, response)
      case None => Bad
      case Some(r) => Later(ParseWith(read, rest, Some(r)), |line| + 2)
  }

  function Later(p: Parse, n: nat): Parse {
    match p case Bad => Bad case Parsed(response, used) => Parsed(response, n + used)
  }

  ghost function ParseLines(data: string, response: Option<Response>): (r: Parse)
    ensures r.Parsed? ==> 2 <= r.used <= |data|
  {
    ParseWith(OneLine, data, response)
  }

  /** What `deserialize` returns; None is an exception. */
  ghost function ResponseOf(p: Parse): Option<Response> {
    match p case Bad => None case Parsed(response, _) => Some(response)
  }

  // ---------------------------------------------------------------------------------------------
  // The parser
  // ---------------------------------------------------------------------------------------------

  method ParseCode(line: string) returns (code: Code)
    ensures code == CodeOf(line)
  {
    code := UNKNOWN;
    ghost var last: int := -1;
    ghost var named := NameTest(line);
    for i := 0 to |KNOWN_CODES|
      invariant IsLast(named, i, last) && code == if last == -1 then UNKNOWN else KNOWN_CODES[last]
    {
      LastNext(named, i, last);
      if Names(line, i) {
        code := KNOWN_CODES[i];
        last := i;
      }
    }
    LastIsUnique(named, |KNOWN_CODES|, last);
  }

  lemma LastNext(p: nat -> bool, n: nat, last: int)
    requires IsLast(p, n, last)
    ensures IsLast(p, n + 1, if p(n) then n else last)
  {
  }

  /** What one line contributes. */
  lemma ResponseStep(data: string, before: Option<Response>)
    requires Find(data, CRLF).Some?
    ensures var line, rest := data[..Find(data, CRLF).value], data[Find(data, CRLF).value + 2..];
            ResponseOf(ParseLines(data, before)) ==
              if line == "" then before
              else if OneLine(line, before).None? then None
              else ResponseOf(ParseLines(rest, OneLine(line, before)))
  {
    var pos := Find(data, CRLF).value;
    SplitParsed(OneLine, data, data[..pos], data[pos + 2..], before);
  }

  method Deserialize(input: string) returns (result: Option<Response>)
    ensures result == ResponseOf(ParseLines(input, None))
  {
    var data := input;
    var response := Response([], UNKNOWN, true);
    var firstLine := true;
    while true
      invariant ResponseOf(ParseLines(input, None)) == ResponseOf(ParseLines(data, if firstLine then None else Some(response)))
      decreases |data|
    {
      var pos := Find(data, CRLF);
      if pos.None? {
        return None;
      }
      var line := data[..pos.value];
      ResponseStep(data, if firstLine then None else Some(response));
      data := data[pos.value + 2..];
      if line == "" {
        if firstLine {
          return None;
        }
        return Some(response);
      }
      if firstLine {
        firstLine := false;
        var http10 := StartsWith(line, "HTTP/1.0");
        if !http10 && !StartsWith(line, "HTTP/1.1") {
          return None;
        }
        if |line| < 9 {
          return None;
        }
        var code := ParseCode(line[9..]);
        response := Response([], code, !http10);
      } else {
        var keyPos := Find(line, ": ");
        if keyPos.None? {
          return None;
        }
        response := response.(headers := Emplace(response.headers, line[..keyPos.value], line[keyPos.value + 2..]));
      }
    }
  }

  // ---------------------------------------------------------------------------------------------
  // What the parser does with a header that arrives in pieces
  // ---------------------------------------------------------------------------------------------

  /** A text that starts with a line and its line end. */
  ghost predicate Splits(data: string, line: string, rest: string) {
    Find(data, CRLF) == Some(|line|) && data[..|line|] == line && data[|line| + 2..] == rest
  }

  lemma FirstSplit(data: string) returns (line: string, rest: string)
    requires Find(data, CRLF).Some?
    ensures Splits(data, line, rest) && |data| == |line| + 2 + |rest|
  {
    var pos := Find(data, CRLF).value;
    line, rest := data[..pos], data[pos + 2..];
  }

  lemma SplitParsed(read: Reader, data: string, line: string, rest: string, response: Option<Response>)
    requires Splits(data, line, rest)
    ensures ParseWith(read, data, response) == AfterLine(read, line, rest, response)
  {
  }

  lemma SplitLonger(data: string, line: string, rest: string, more: string)
    requires Splits(data, line, rest)
    ensures Splits(data + more, line, rest + more)
  {
    FindStable(data, more, CRLF);
    assert (data + more)[..|line|] == line && (data + more)[|line| + 2..] == rest + more;
  }

  /** Bytes after the blank line change nothing. */
  lemma {:induction false} ParseStable(read: Reader, data: string, response: Option<Response>, more: string)
    requires ParseWith(read, data, response).Parsed?
    ensures ParseWith(read, data + more, response) == ParseWith(read, data, response)
    decreases |data|
  {
    var line, rest := FirstSplit(data);
    SplitLonger(data, line, rest, more);
    SplitParsed(read, data, line, rest, response);
    SplitParsed(read, data + more, line, rest + more, response);
    if line != "" {
      ParseStable(read, rest, read(line, response), more);
    }
  }

  ghost predicate FirstBlankLine(s: string, i: int) {
    i >= 0 && OccursAt(s, HEADER_END, i) && forall j: nat :: j < i ==> !OccursAt(s, HEADER_END, j)
  }

  /** A blank line contains two line ends. */
  lemma BlankLineHasLineEnd(data: string, j: nat)
    requires OccursAt(data, HEADER_END, j)
    ensures OccursAt(data, CRLF, j) && OccursAt(data, CRLF, j + 2)
  {
    assert data[j..j + 2] == data[j..j + 4][..2];
    assert data[j + 2..j + 4] == data[j..j + 4][2..];
  }

  /** No blank line starts before the end of the current, non-empty line. */
  lemma BlankLineIsLater(data: string, pos: nat, j: nat)
    requires Find(data, CRLF) == Some(pos) && pos > 0 && OccursAt(CRLF + data, HEADER_END, j)
    ensures j >= pos + 2
  {
    var s := CRLF + data;
    FindSpec(data, CRLF);
    BlankLineHasLineEnd(s, j);
    assert s[j] == s[j..j + 2][0] == '\r';
    OccursInSuffix(CRLF, data, CRLF, j);
    if j >= 2 {
      OccursInSuffix(CRLF, data, CRLF, j - 2);
    }
    assert s[1] == '\n';
  }

  lemma BlankLineIn(x: string, s: string, i: int)
    requires FirstBlankLine(s, i) && forall j: nat :: j < |x| ==> !OccursAt(x + s, HEADER_END, j)
    ensures FirstBlankLine(x + s, |x| + i)
  {
    OccursInSuffix(x, s, HEADER_END, i);
    forall j: nat | j < |x| + i
      ensures !OccursAt(x + s, HEADER_END, j)
    {
      if j >= |x| { OccursInSuffix(x, s, HEADER_END, j - |x|); }
    }
  }

  /** One non-empty line in front moves the first blank line by the length of the line. */
  lemma LineInFront(data: string, pos: nat, i: int)
    requires Find(data, CRLF) == Some(pos) && pos > 0 && FirstBlankLine(CRLF + data[pos + 2..], i)
    ensures FirstBlankLine(CRLF + data, pos + 2 + i) && FirstBlankLine(data, pos + i)
  {
    var line, tail := data[..pos], CRLF + data[pos + 2..];
    FindSpec(data, CRLF);
    assert data[pos..pos + 2] == CRLF;
    assert data == line + tail && CRLF + data == (CRLF + line) + tail;
    forall j: nat | j < pos + 2
      ensures !OccursAt((CRLF + line) + tail, HEADER_END, j)
    {
      if OccursAt(CRLF + data, HEADER_END, j) { BlankLineIsLater(data, pos, j); }
    }
    BlankLineIn(CRLF + line, tail, i);
    forall j: nat | j < pos
      ensures !OccursAt(line + tail, HEADER_END, j)
    {
      if OccursAt(data, HEADER_END, j) { BlankLineHasLineEnd(data, j); }
    }
    BlankLineIn(line, tail, i);
  }

  lemma BlankLineHere(data: string)
    requires Find(data, CRLF) == Some(0)
    ensures FirstBlankLine(CRLF + data, 0)
  {
    FindSpec(data, CRLF);
    assert data[0..2] == CRLF;
    assert (CRLF + data)[0..4] == CRLF + data[0..2];
  }

  /** The bytes the line parser consumes end with the first blank line, seen with the line end before them. */
  ghost predicate EndsRight(read: Reader, data: string, response: Option<Response>) {
    var p := ParseWith(read, data, response); p.Parsed? && FirstBlankLine(CRLF + data, p.used - 2)
  }

  lemma EndsBehindLine(read: Reader, data: string, line: string, rest: string, response: Option<Response>)
    requires Splits(data, line, rest) && ParseWith(read, data, response).Parsed? && response.Some?
    requires line != "" ==> EndsRight(read, rest, read(line, response))
    ensures EndsRight(read, data, response)
  {
    SplitParsed(read, data, line, rest, response);
    if line == "" {
      BlankLineHere(data);
    } else {
      LineInFront(data, |line|, ParseWith(read, rest, read(line, response)).used - 2);
    }
  }

  lemma {:induction false} EndsAtFirstBlankLine(read: Reader, data: string, response: Option<Response>)
    requires ParseWith(read, data, response).Parsed? && response.Some?
    ensures EndsRight(read, data, response)
    decreases |data|
  {
    var line, rest := FirstSplit(data);
    SplitParsed(read, data, line, rest, response);
    if line != "" {
      EndsAtFirstBlankLine(read, rest, read(line, response));
    }
    EndsBehindLine(read, data, line, rest, response);
  }

  /** The separate search for the end of the header agrees with the line parser. */
  lemma HeaderEndAgrees(read: Reader, data: string)
    requires ParseWith(read, data, None).Parsed?
    ensures ParseWith(read, data, None).used >= 4
    ensures Find(data, HEADER_END) == Some(ParseWith(read, data, None).used - 4)
  {
    var line, rest := FirstSplit(data);
    SplitParsed(read, data, line, rest, None);
    var p := ParseWith(read, rest, read(line, None));
    EndsAtFirstBlankLine(read, rest, read(line, None));
    FoundBehindLine(data, line, rest, p.used - 2);
  }

  lemma FoundBehindLine(data: string, line: string, rest: string, i: int)
    requires Splits(data, line, rest) && line != "" && FirstBlankLine(CRLF + rest, i)
    ensures Find(data, HEADER_END) == Some(|line| + i) && i >= 0
  {
    LineInFront(data, |line|, i);
    FirstIsFound(data, |line| + i);
  }

  lemma FirstIsFound(data: string, i: int)
    requires FirstBlankLine(data, i)
    ensures Find(data, HEADER_END) == Some(i) && i + 4 <= |data|
  {
    FindIs(data, HEADER_END, i);
  }

  lemma SplitPrefix(data: string, line: string, rest: string, n: nat)
    requires Splits(data, line, rest) && n <= |data|
    ensures if n >= |line| + 2 then Splits(data[..n], line, rest[..n - |line| - 2]) else Find(data[..n], CRLF).None?
  {
    FindInPrefix(data, CRLF, n);
    if n >= |line| + 2 {
      assert data[..n][..|line|] == line && data[..n][|line| + 2..] == rest[..n - |line| - 2];
    }
  }

  ghost predicate PrefixAgrees(read: Reader, data: string, response: Option<Response>, n: nat) {
    && n <= |data| && ParseWith(read, data, response).Parsed?
    && ParseWith(read, data[..n], response) ==
       if n >= ParseWith(read, data, response).used then ParseWith(read, data, response) else Bad
  }

  lemma PrefixOfLine(read: Reader, data: string, line: string, rest: string, response: Option<Response>, n: nat)
    requires Splits(data, line, rest) && n <= |data| && ParseWith(read, data, response).Parsed?
    requires n >= |line| + 2 && line != "" ==> PrefixAgrees(read, rest, read(line, response), n - |line| - 2)
    ensures PrefixAgrees(read, data, response, n)
  {
    SplitParsed(read, data, line, rest, response);
    SplitPrefix(data, line, rest, n);
    if n >= |line| + 2 {
      SplitParsed(read, data[..n], line, rest[..n - |line| - 2], response);
    }
  }

  lemma {:induction false} PrefixHolds(read: Reader, data: string, response: Option<Response>, n: nat)
    requires ParseWith(read, data, response).Parsed? && n <= |data|
    ensures PrefixAgrees(read, data, response, n)
    decreases |data|
  {
    var line, rest := FirstSplit(data);
    SplitParsed(read, data, line, rest, response);
    if n >= |line| + 2 && line != "" {
      PrefixHolds(read, rest, read(line, response), n - |line| - 2);
    }
    PrefixOfLine(read, data, line, rest, response, n);
  }

  /** A prefix is parsed as everything is when it has the whole header; else it is an exception. */
  lemma PrefixParsed(read: Reader, data: string, response: Option<Response>, n: nat)
    requires ParseWith(read, data, response).Parsed? && n <= |data|
    ensures ParseWith(read, data[..n], response) ==
            if n >= ParseWith(read, data, response).used then ParseWith(read, data, response) else Bad
  {
    PrefixHolds(read, data, response, n);
  }
}
