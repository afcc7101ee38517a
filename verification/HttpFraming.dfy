/** What the end-of-response decision guarantees: src/network/http_helper.cpp, against sections 6.3 and 7.1 of
    RFC 9112. */
module HttpFraming {
  import opened Options
  import opened Words
  import opened Texts
  import opened Dictionary
  import opened HttpResponse
  import opened HttpHelper

  // ---------------------------------------------------------------------------------------------
  // The header
  // ---------------------------------------------------------------------------------------------

  /** The bytes the line parser consumes: status line, header lines and the blank line. */
  ghost function HeaderBytes(data: string): (n: nat)
    requires ParseLines(data, None).Parsed?
    ensures n <= |data|
  {
    ParseLines(data, None).used
  }

  /** The header length that is found by searching for the blank line is the number of bytes the line
      parser consumed. */
  lemma HeaderLengthExact(data: string)
    requires ParseLines(data, None).Parsed?
    ensures HeaderLength(data) == HeaderBytes(data) % WORD32 && HeaderBytes(data) >= 4
    ensures OccursAt(data, HEADER_END, HeaderBytes(data) - 4)
  {
    var n := HeaderEnds(data);
    HeaderLengthIs(data, n);
    FoundOccurs(data, HEADER_END);
  }

  lemma HeaderEnds(data: string) returns (n: nat)
    requires ParseLines(data, None).Parsed?
    ensures n == HeaderBytes(data) && n >= 4 && Find(data, HEADER_END) == Some(n - 4)
  {
    n := ParsedUpTo(OneLine, data);
  }

  lemma ParsedUpTo(read: Reader, data: string) returns (n: nat)
    requires ParseWith(read, data, None).Parsed?
    ensures n == ParseWith(read, data, None).used && n >= 4 && Find(data, HEADER_END) == Some(n - 4)
  {
    HeaderEndAgrees(read, data);
    n := ParseWith(read, data, None).used;
  }

  lemma HeaderLengthIs(data: string, n: nat)
    requires n >= 4 && Find(data, HEADER_END) == Some(n - 4)
    ensures HeaderLength(data) == n % WORD32
  {
  }

  lemma FoundOccurs(s: string, p: string)
    requires Find(s, p).Some?
    ensures OccursAt(s, p, Find(s, p).value)
  {
    FindSpec(s, p);
  }

  /** A header that was understood stays understood in the same way, whatever arrives after it. */
  lemma DetectStable(data: string, more: string)
    requires Detect(data).Some?
    ensures Detect(data + more).Some? && ParseLines(data + more, None).Parsed?
    ensures var before, after := Detect(data).value, Detect(data + more).value;
            && after.response == before.response && after.length == before.length && after.encoding == before.encoding
            && (!WithoutContent(before.response.code) ==> after.headerLength == before.headerLength)
  {
    ParseStable(OneLine, data, None, more);
    HeaderLengthStable(data, more);
    JudgeSame(ParseLines(data, None).response, |data|, |data + more|, HeaderLength(data));
  }

  lemma HeaderLengthStable(data: string, more: string)
    requires ParseLines(data, None).Parsed?
    ensures HeaderLength(data + more) == HeaderLength(data)
  {
    HeaderEndAgrees(OneLine, data);
    FindStable(data, more, HEADER_END);
  }

  lemma JudgeSame(response: Response, one: nat, other: nat, headerLength: nat)
    requires Judge(response, one, headerLength).Some?
    ensures var before, after := Judge(response, one, headerLength), Judge(response, other, headerLength);
            && after.Some? && after.value == before.value.(headerLength := after.value.headerLength)
            && (!WithoutContent(response.code) ==> after == before)
            && before.value.response == response
  {
  }

  /** The complete header must be in the bytes that are parsed; then more bytes change nothing. */
  lemma ParsedIffWholeHeader(data: string, n: nat)
    requires ParseLines(data, None).Parsed? && n <= |data|
    ensures ParseLines(data[..n], None).Parsed? <==> n >= HeaderBytes(data)
    ensures n >= HeaderBytes(data) ==>
      ParseLines(data[..n], None).response == ParseLines(data, None).response && HeaderBytes(data[..n]) == HeaderBytes(data)
  {
    PrefixParsed(OneLine, data, None, n);
  }

  // ---------------------------------------------------------------------------------------------
  // Bytes that arrive in pieces
  // ---------------------------------------------------------------------------------------------

  /** Where one attempt to receive a response stands: the bytes so far and the cached header. */
  datatype Progress = Failed | Waiting(data: string, cached: Option<Info>) | Complete(data: string, info: Info)

  ghost function Feed(p: Progress, piece: string): Progress {
    if !p.Waiting? then p
    else
      match Finished(p.data + piece, p.cached)
      case Throws => Failed
      case Says(done, info) => if done then Complete(p.data + piece, info) else Waiting(p.data + piece, Some(info))
  }

  ghost function FeedAll(p: Progress, pieces: seq<string>): Progress
    decreases |pieces|
  {
    if pieces == [] then p else FeedAll(Feed(p, pieces[0]), pieces[1..])
  }

  function Joined(pieces: seq<string>): string {
    if pieces == [] then "" else pieces[0] + Joined(pieces[1..])
  }

  /** `finished`, once true, stays true, with the same response and body length; and a cached header
      gives the verdict that parsing everything again would give. */
  lemma FinishedStable(data: string, more: string)
    requires Detect(data).Some?
    ensures var now, cached, again := Finished(data, None), Finished(data + more, Detect(data)), Finished(data + more, None);
            && now.Says? && cached.Says? && again.Says? && cached.done == again.done
            && cached.info.response == again.info.response == now.info.response
            && cached.info.length == again.info.length
            && (now.done ==> again.done && again.info.length == now.info.length)
            && (!again.done ==> cached.info == again.info == now.info)
  {
    DetectStable(data, more);
    DecideStable(Detect(data).value, Detect(data + more).value, data, more);
  }

  lemma DecideStable(info: Info, again: Info, data: string, more: string)
    requires WithoutContent(info.response.code) || info.encoding != Unknown
    requires again == info.(headerLength := again.headerLength)
    requires !WithoutContent(info.response.code) ==> again == info
    ensures var now, later := Decide(info, |data|, Find(data, CHUNK_END)), Decide(again, |data + more|, Find(data + more, CHUNK_END));
            && now.Says? && later.Says? && later.info.response == now.info.response == info.response
            && (now.done ==> later.done && later.info.length == now.info.length)
            && (!later.done ==> now.info == later.info == info)
            && Decide(info, |data + more|, Find(data + more, CHUNK_END)).Says?
            && Decide(info, |data + more|, Find(data + more, CHUNK_END)).done == later.done
            && Decide(info, |data + more|, Find(data + more, CHUNK_END)).info.length == later.info.length
            && Decide(info, |data + more|, Find(data + more, CHUNK_END)).info.response == info.response
  {
    if Find(data, CHUNK_END).Some? {
      FindStable(data, more, CHUNK_END);
    }
  }

  /** A cached header has an encoding that `finished` knows, or no content. */
  ghost predicate Known(p: Progress) {
    p.Waiting? && p.cached.Some? ==> p.cached.value.encoding != Unknown || WithoutContent(p.cached.value.response.code)
  }

  lemma {:induction false} KnownStays(p: Progress, pieces: seq<string>)
    requires Known(p)
    ensures Known(FeedAll(p, pieces))
    decreases |pieces|
  {
    if pieces != [] { KnownStays(Feed(p, pieces[0]), pieces[1..]); }
  }

  /** The branch of `finished` for an unknown encoding is never taken: with a cached header there is no exception, whatever
      pieces came before, and without one there is an exception exactly when `detect` refuses the header. */
  lemma UnknownIsDead(pieces: seq<string>, data: string)
    ensures var p := FeedAll(Waiting("", None), pieces);
            p.Waiting? && p.cached.Some? ==> Finished(p.data + data, p.cached).Says?
    ensures Finished(data, None).Throws? <==> Detect(data).None?
  {
    KnownStays(Waiting("", None), pieces);
  }

  lemma {:induction false} CompleteIsFinal(p: Progress, pieces: seq<string>)
    requires !p.Waiting?
    ensures FeedAll(p, pieces) == p
    decreases |pieces|
  {
    if pieces != [] { CompleteIsFinal(p, pieces[1..]); }
  }

  /** The verdict `p` agrees with what `finished` says of all bytes. */
  ghost predicate Agrees(p: Progress, all: string) {
    var whole := Finished(all, None);
    && !p.Failed? && whole.Says? && p.Complete? == whole.done
    && (p.Complete? ==> p.info.length == whole.info.length && p.info.response == whole.info.response)
    && (p.Waiting? ==> p.data == all && p.cached == Some(whole.info))
  }

  /** One more piece, and bytes after it. */
  lemma FeedOne(data: string, piece: string, more: string)
    requires Detect(data).Some? && !Finished(data, None).done
    ensures var p := Feed(Waiting(data, Detect(data)), piece);
            && !p.Failed? && Detect(data + piece).Some?
            && (p.Complete? ==> Agrees(p, data + piece + more))
            && (p.Waiting? ==> p == Waiting(data + piece, Detect(data + piece)) && !Finished(data + piece, None).done)
  {
    FinishedStable(data, piece);
    DetectStable(data, piece);
    FinishedStable(data + piece, more);
  }

  /** After the header: the pieces that follow lead where all bytes at once would lead. */
  lemma {:induction false} FeedOn(data: string, pieces: seq<string>)
    requires Detect(data).Some? && !Finished(data, None).done
    ensures Agrees(FeedAll(Waiting(data, Detect(data)), pieces), data + Joined(pieces))
    decreases |pieces|
  {
    if pieces == [] {
      assert data + Joined(pieces) == data;
      FinishedStable(data, "");
    } else {
      var piece, rest := pieces[0], pieces[1..];
      var p := Feed(Waiting(data, Detect(data)), piece);
      assert data + Joined(pieces) == data + piece + Joined(rest);
      FeedOne(data, piece, Joined(rest));
      if p.Complete? {
        CompleteIsFinal(p, rest);
      } else {
        FeedOn(data + piece, rest);
      }
    }
  }

  /** The verdict on a response that arrives in any pieces: an exception exactly when the first piece
      does not hold the whole header, or the header is refused; otherwise what `finished` says of all
      bytes together, however the rest was split. */
  lemma SplitVerdict(pieces: seq<string>)
    requires pieces != []
    ensures var p, whole := FeedAll(Waiting("", None), pieces), Joined(pieces);
            && (p.Failed? <==> Detect(whole).None? || |pieces[0]| < HeaderBytes(whole))
            && (!p.Failed? ==>
                  && p.Complete? == Finished(whole, None).done
                  && (p.Complete? ==> p.info.length == Finished(whole, None).info.length
                                      && p.info.response == Finished(whole, None).info.response))
  {
    var first, more := pieces[0], Joined(pieces[1..]);
    assert "" + first == first && Joined(pieces) == first + more;
    if Detect(first).Some? {
      HeaderAtOnce(first, pieces[1..]);
    } else {
      CompleteIsFinal(Feed(Waiting("", None), first), pieces[1..]);
      HeaderInPieces(first, more);
    }
  }

  lemma HeaderAtOnce(first: string, rest: seq<string>)
    requires Detect(first).Some?
    ensures ParseLines(first + Joined(rest), None).Parsed? && |first| >= HeaderBytes(first + Joined(rest))
    ensures var p, whole := FeedAll(Feed(Waiting("", None), first), rest), first + Joined(rest);
            && !p.Failed? && Detect(whole).Some?
            && p.Complete? == Finished(whole, None).done
            && (p.Complete? ==> p.info.length == Finished(whole, None).info.length
                                && p.info.response == Finished(whole, None).info.response)
  {
    assert "" + first == first;
    ParseStable(OneLine, first, None, Joined(rest));
    FinishedStable(first, Joined(rest));
    DetectStable(first, Joined(rest));
    if Finished(first, None).done {
      CompleteIsFinal(Feed(Waiting("", None), first), rest);
    } else {
      FeedOn(first, rest);
    }
  }

  lemma HeaderInPieces(first: string, more: string)
    requires Detect(first).None?
    ensures Detect(first + more).None? || |first| < HeaderBytes(first + more)
  {
    if Detect(first + more).Some? {
      assert (first + more)[..|first|] == first;
      ParsedIffWholeHeader(first + more, |first|);
    }
  }

  /** Two ways to split the same bytes, both with the whole header in the first piece, end alike. */
  lemma SplitIndependent(one: seq<string>, other: seq<string>)
    requires one != [] && other != [] && Joined(one) == Joined(other)
    requires ParseLines(one[0], None).Parsed? && ParseLines(other[0], None).Parsed?
    ensures var p, q := FeedAll(Waiting("", None), one), FeedAll(Waiting("", None), other);
            && p.Failed? == q.Failed? && p.Complete? == q.Complete?
            && (p.Complete? ==> p.info.length == q.info.length && p.info.response == q.info.response)
  {
    SplitVerdict(one);
    SplitVerdict(other);
    forall pieces | pieces in [one, other]
      ensures ParseLines(Joined(pieces), None).Parsed? && |pieces[0]| >= HeaderBytes(Joined(pieces))
    {
      ParseStable(OneLine, pieces[0], None, Joined(pieces[1..]));
    }
    assert one in [one, other] && other in [one, other];
  }

  // ---------------------------------------------------------------------------------------------
  // A body with a length (section 6.3 of RFC 9112)
  // ---------------------------------------------------------------------------------------------

  lemma HeaderLengthKept(header: string)
    requires Detect(header).Some? && !WithoutContent(Detect(header).value.response.code)
    requires HeaderBytes(header) < WORD32
    ensures Detect(header).value.headerLength == HeaderBytes(header)
  {
    HeaderLengthExact(header);
  }

  /** The response is complete exactly when header and body have arrived, as long as header length plus body length
      fits 64 bits; a sum that wraps counts as complete at once. */
  lemma LengthVerdict(data: string)
    requires Detect(data).Some? && HeaderBytes(data) < WORD32
    requires var info := Detect(data).value; info.encoding == ContentLength && !WithoutContent(info.response.code)
    ensures var n := HeaderBytes(data) + Detect(data).value.length;
            Finished(data, None).done <==> |data| >= n || n >= WORD
  {
    HeaderLengthKept(data);
    LengthDecision(Detect(data).value, HeaderBytes(data), |data|, Find(data, CHUNK_END));
  }

  lemma LengthDecision(info: Info, header: nat, total: nat, end: Option<nat>)
    requires info.headerLength == header <= total && header < WORD && info.length < WORD
    requires info.encoding == ContentLength && !WithoutContent(info.response.code)
    ensures Decide(info, total, end).Says? && (Decide(info, total, end).done <==> total >= header + info.length || header + info.length >= WORD)
  {
  }

  // ---------------------------------------------------------------------------------------------
  // A chunked body (section 7.1 of RFC 9112)
  // ---------------------------------------------------------------------------------------------

  predicate IsHex(c: char) {
    '0' <= c <= '9' || 'a' <= c <= 'f' || 'A' <= c <= 'F'
  }

  function HexDigit(c: char): (d: nat)
    requires IsHex(c)
  {
    if c <= '9' then (c - '0') as nat else if c <= 'F' then (c - 'A') as nat + 10 else (c - 'a') as nat + 10
  }

  function HexValue(s: string): nat
    requires forall i :: 0 <= i < |s| ==> IsHex(s[i])
  {
    if s == "" then 0 else 16 * HexValue(s[..|s| - 1]) + HexDigit(s[|s| - 1])
  }

  /** Text without a line end. */
  predicate OneLineText(s: string) {
    forall i :: 0 <= i < |s| ==> s[i] != '\r' && s[i] != '\n'
  }

  /** Chunk extensions: nothing, or text of one line after a semicolon or white space. */
  predicate IsExtension(s: string) {
    OneLineText(s) && (s != "" ==> s[0] == ';' || s[0] == ' ' || s[0] == '\t')
  }

  datatype Chunk = Chunk(size: string, ext: string, data: string)

  /** A chunk: a size in hexadecimal that is not zero, extensions, and as many bytes. */
  ghost predicate IsChunk(c: Chunk) {
    && c.size != "" && (forall i :: 0 <= i < |c.size| ==> IsHex(c.size[i])) && IsExtension(c.ext)
    && HexValue(c.size) == |c.data| > 0
  }

  function SizeLine(c: Chunk): string {
    c.size + c.ext
  }

  function ChunkText(c: Chunk): string {
    Framed(SizeLine(c), c.data)
  }

  function Framed(line: string, data: string): string {
    line + CRLF + data + CRLF
  }

  function ChunksText(chunks: seq<Chunk>): string {
    if chunks == [] then "" else ChunkText(chunks[0]) + ChunksText(chunks[1..])
  }

  /** The last chunk with its extensions, and the trailer fields, one line each. */
  datatype End = End(zeros: string, ext: string, fields: seq<string>)

  /** One or more zeros; no trailer line is empty. */
  ghost predicate IsEnd(e: End) {
    && e.zeros != "" && (forall i :: 0 <= i < |e.zeros| ==> e.zeros[i] == '0') && IsExtension(e.ext)
    && AreLines(e.fields)
  }

  function LinesText(lines: seq<string>): string {
    if lines == [] then "" else lines[0] + CRLF + LinesText(lines[1..])
  }

  function EndLines(e: End): (lines: seq<string>)
    ensures lines != []
  {
    [e.zeros + e.ext] + e.fields
  }

  function EndText(e: End): string {
    Block(EndLines(e))
  }

  predicate EndsInZero(s: string) {
    s != "" && s[|s| - 1] == '0'
  }

  /** The line before the blank line that ends the body, the last chunk itself when there are no trailer fields,
      ends in a zero. */
  predicate ZeroAtEnd(e: End) {
    EndsInZero(EndLines(e)[|e.fields|])
  }

  /** The size and the start of the data look like the terminator. */
  predicate ImitatesInFront(line: string, data: string) {
    EndsInZero(line) && StartsWith(data, CRLF)
  }

  /** The end of the data and the line end behind it do. */
  predicate ImitatesBehind(data: string) {
    |data| >= 3 && data[|data| - 3..] == "0\r\n"
  }

  /** Nothing in this chunk looks like the end of the body. */
  ghost predicate Clean(c: Chunk) {
    !ImitatesInFront(SizeLine(c), c.data) && !ImitatesBehind(c.data) && Find(c.data, CHUNK_END).None?
  }

  lemma ChunkEndChars(s: string, j: nat)
    ensures OccursAt(s, CHUNK_END, j) <==>
            j + 5 <= |s| && s[j] == '0' && s[j + 1] == '\r' && s[j + 2] == '\n' && s[j + 3] == '\r' && s[j + 4] == '\n'
  {
    if j + 5 <= |s| {
      assert s[j..j + 5] == [s[j], s[j + 1], s[j + 2], s[j + 3], s[j + 4]];
    }
  }

  /** The text `b` starts a line. */
  predicate Begins(b: string) {
    b != "" && b[0] != '\r' && b[0] != '\n'
  }

  /** The terminator never spans a point where a line with text starts. */
  lemma NoSpan(a: string, b: string, j: nat)
    requires Begins(b) && j < |a| < j + 5
    ensures !OccursAt(a + b, CHUNK_END, j)
  {
    ChunkEndChars(a + b, j);
    assert (a + b)[|a|] == b[0];
  }

  lemma FindInTwo(a: string, b: string)
    requires Begins(b)
    ensures Find(a + b, CHUNK_END) ==
              if Find(a, CHUNK_END).Some? then Find(a, CHUNK_END)
              else if Find(b, CHUNK_END).Some? then Some(|a| + Find(b, CHUNK_END).value)
              else None
  {
    if Find(a, CHUNK_END).Some? {
      FindStable(a, b, CHUNK_END);
    } else {
      forall j: nat | j < |a|
        ensures !OccursAt(a + b, CHUNK_END, j)
      {
        NotInFirst(a, b, j);
      }
      FindInSecond(a, b);
    }
  }

  lemma NotInFirst(a: string, b: string, j: nat)
    requires Begins(b) && Find(a, CHUNK_END).None? && j < |a|
    ensures !OccursAt(a + b, CHUNK_END, j)
  {
    if j + 5 <= |a| {
      FindSpec(a, CHUNK_END);
      OccursInLonger(a, b, CHUNK_END, j);
    } else {
      NoSpan(a, b, j);
    }
  }

  lemma FindInSecond(a: string, b: string)
    requires forall j: nat :: j < |a| ==> !OccursAt(a + b, CHUNK_END, j)
    ensures Find(a + b, CHUNK_END) ==
              if Find(b, CHUNK_END).Some? then Some(|a| + Find(b, CHUNK_END).value) else None
  {
    FindSpec(b, CHUNK_END);
    if Find(b, CHUNK_END).Some? {
      var i := Find(b, CHUNK_END).value;
      OccursInSuffix(a, b, CHUNK_END, i);
      forall j: nat | j < |a| + i
        ensures !OccursAt(a + b, CHUNK_END, j)
      {
        if j >= |a| { OccursInSuffix(a, b, CHUNK_END, j - |a|); }
      }
      FindIs(a + b, CHUNK_END, |a| + i);
    } else {
      FindSpec(a + b, CHUNK_END);
      if Find(a + b, CHUNK_END).Some? {
        OccursInSuffix(a, b, CHUNK_END, Find(a + b, CHUNK_END).value - |a|);
      }
    }
  }

  lemma SizeLineIsLine(c: Chunk)
    requires IsChunk(c)
    ensures SizeLine(c) != "" && OneLineText(SizeLine(c))
  {
  }

  lemma ChunkChars(c: Chunk)
    requires IsChunk(c)
    ensures var s, k, d := ChunkText(c), |SizeLine(c)| + 2, |c.data|;
            && |s| == k + d + 2 && k > 2
            && (forall i :: 0 <= i < k - 2 ==> s[i] == SizeLine(c)[i] && s[i] != '\r' && s[i] != '\n')
            && s[k - 2] == '\r' && s[k - 1] == '\n' && s[k + d] == '\r' && s[k + d + 1] == '\n'
            && forall i :: 0 <= i < d ==> s[k + i] == c.data[i]
  {
    SizeLineIsLine(c);
  }

  lemma LastThree(s: string)
    requires |s| >= 3
    ensures s[|s| - 3..] == "0\r\n" <==> s[|s| - 3] == '0' && s[|s| - 2] == '\r' && s[|s| - 1] == '\n'
  {
    assert s[|s| - 3..] == [s[|s| - 3], s[|s| - 2], s[|s| - 1]];
  }

  lemma FirstTwo(s: string)
    ensures StartsWith(s, CRLF) <==> |s| >= 2 && s[0] == '\r' && s[1] == '\n'
  {
    if |s| >= 2 { assert s[0..2] == [s[0], s[1]]; }
  }

  /** The terminator occurs in a chunk that is not clean... */
  lemma UncleanAt(c: Chunk) returns (j: nat)
    requires IsChunk(c) && !Clean(c)
    ensures OccursAt(ChunkText(c), CHUNK_END, j)
  {
    if Find(c.data, CHUNK_END).Some? {
      FindSpec(c.data, CHUNK_END);
      j := |SizeLine(c) + CRLF| + Find(c.data, CHUNK_END).value;
      OccursInSuffix(SizeLine(c) + CRLF, c.data, CHUNK_END, Find(c.data, CHUNK_END).value);
      OccursInLonger(SizeLine(c) + CRLF + c.data, CRLF, CHUNK_END, j);
    } else {
      j := Edge(SizeLine(c), c.data);
    }
  }

  lemma Edge(line: string, data: string) returns (j: nat)
    requires ImitatesInFront(line, data) || ImitatesBehind(data)
    ensures OccursAt(Framed(line, data), CHUNK_END, j)
  {
    if ImitatesInFront(line, data) {
      EdgeInFront(line, data);
      j := |line| - 1;
    } else {
      EdgeBehind(line, data);
      j := |line| + 2 + |data| - 3;
    }
  }

  lemma EdgeInFront(line: string, data: string)
    requires ImitatesInFront(line, data)
    ensures OccursAt(Framed(line, data), CHUNK_END, |line| - 1)
  {
    FirstTwo(data);
    ChunkEndChars(Framed(line, data), |line| - 1);
  }

  lemma EdgeBehind(line: string, data: string)
    requires ImitatesBehind(data)
    ensures OccursAt(Framed(line, data), CHUNK_END, |line| + 2 + |data| - 3)
  {
    LastThree(data);
    ChunkEndChars(Framed(line, data), |line| + 2 + |data| - 3);
  }

  /** ... and in no other. */
  lemma UncleanWith(c: Chunk, j: nat)
    requires IsChunk(c) && OccursAt(ChunkText(c), CHUNK_END, j)
    ensures !Clean(c)
  {
    ChunkChars(c);
    ChunkEndChars(ChunkText(c), j);
    var k, d := |SizeLine(c)| + 2, |c.data|;
    if j < k - 2 {
      assert j == k - 3;
      FirstTwo(c.data);
    } else if j - k + 5 <= d {
      ChunkEndChars(c.data, j - k);
      FindSpec(c.data, CHUNK_END);
    } else {
      assert j == k + d - 3;
      LastThree(c.data);
    }
  }

  /** Inside one chunk the terminator is found exactly when the chunk is not clean. */
  lemma ChunkIsClean(c: Chunk)
    requires IsChunk(c)
    ensures Find(ChunkText(c), CHUNK_END).None? <==> Clean(c)
  {
    FindSpec(ChunkText(c), CHUNK_END);
    if Find(ChunkText(c), CHUNK_END).Some? {
      UncleanWith(c, Find(ChunkText(c), CHUNK_END).value);
    } else if !Clean(c) {
      var j := UncleanAt(c);
    }
  }

  /** A text without line ends, and one line end or two. */
  lemma LineFound(line: string)
    requires line != "" && OneLineText(line)
    ensures Find(line + CRLF, CHUNK_END).None?
    ensures Find(line + CRLF + CRLF, CHUNK_END) == if EndsInZero(line) then Some(|line| - 1) else None
  {
    var short, long := line + CRLF, line + CRLF + CRLF;
    assert forall i :: 0 <= i < |line| ==> long[i] == line[i] && short[i] == line[i];
    forall j: nat
      ensures !OccursAt(short, CHUNK_END, j) && (OccursAt(long, CHUNK_END, j) <==> j == |line| - 1 && EndsInZero(line))
    {
      ChunkEndChars(short, j);
      ChunkEndChars(long, j);
    }
    FindSpec(short, CHUNK_END);
    if EndsInZero(line) {
      FindIs(long, CHUNK_END, |line| - 1);
    } else {
      FindSpec(long, CHUNK_END);
    }
  }

  ghost predicate AreLines(lines: seq<string>) {
    forall i :: 0 <= i < |lines| ==> lines[i] != "" && OneLineText(lines[i])
  }

  /** One line in front of a text that has none of the terminator before its end. */
  lemma LineBefore(line: string, rest: string)
    requires line != "" && OneLineText(line) && Begins(rest)
    ensures Begins(line + CRLF + rest)
    ensures Find(line + CRLF + rest, CHUNK_END) ==
              if Find(rest, CHUNK_END).Some? then Some(|line| + 2 + Find(rest, CHUNK_END).value) else None
  {
    LineFound(line);
    FindInTwo(line + CRLF, rest);
    assert (line + CRLF + rest)[0] == line[0];
  }

  function Block(lines: seq<string>): string {
    LinesText(lines) + CRLF
  }

  lemma BlockFirst(lines: seq<string>)
    requires lines != []
    ensures Block(lines) == lines[0] + CRLF + Block(lines[1..])
  {
  }

  /** The lines after the chunks: the terminator is at their end or nowhere. */
  lemma {:induction false} LinesFound(lines: seq<string>)
    requires lines != [] && AreLines(lines)
    ensures |Block(lines)| >= 5 && Begins(Block(lines))
    ensures Find(Block(lines), CHUNK_END) == if EndsInZero(lines[|lines| - 1]) then Some(|Block(lines)| - 5) else None
  {
    BlockFirst(lines);
    if |lines| == 1 {
      assert lines[1..] == [] && Block([]) == CRLF;
      LineFound(lines[0]);
      assert Block(lines)[0] == lines[0][0];
    } else {
      LinesFound(lines[1..]);
      LineBefore(lines[0], Block(lines[1..]));
    }
  }

  lemma EndFound(e: End)
    requires IsEnd(e)
    ensures |EndText(e)| >= 5 && Begins(EndText(e))
    ensures Find(EndText(e), CHUNK_END) == if ZeroAtEnd(e) then Some(|EndText(e)| - 5) else None
  {
    LinesFound(EndLines(e));
  }

  ghost predicate AreChunks(chunks: seq<Chunk>) {
    forall c :: c in chunks ==> IsChunk(c)
  }

  ghost predicate AllClean(chunks: seq<Chunk>) {
    forall c :: c in chunks ==> Clean(c)
  }

  lemma FirstAndRest(chunks: seq<Chunk>)
    requires chunks != []
    ensures AllClean(chunks) <==> Clean(chunks[0]) && AllClean(chunks[1..])
    ensures AreChunks(chunks) <==> IsChunk(chunks[0]) && AreChunks(chunks[1..])
  {
    assert forall c :: c in chunks <==> c == chunks[0] || c in chunks[1..];
  }

  /** What the search in a body finds: something when it ends in a zero or is not clean, its real end when both hold. */
  ghost predicate EndVerdict(s: string, zero: bool, clean: bool) {
    var r := Find(s, CHUNK_END);
    && Begins(s) && |s| >= 5
    && (r.Some? <==> zero || !clean)
    && (r == Some(|s| - 5) <==> zero && clean)
  }

  /** One chunk in front of a body. */
  lemma ChunkInFront(c: Chunk, rest: string, zero: bool, clean: bool)
    requires IsChunk(c) && EndVerdict(rest, zero, clean)
    ensures EndVerdict(ChunkText(c) + rest, zero, Clean(c) && clean)
  {
    var text := ChunkText(c);
    FindInTwo(text, rest);
    ChunkIsClean(c);
    ChunkBegins(c);
    assert (text + rest)[0] == text[0] && |text + rest| == |text| + |rest|;
  }

  lemma ChunkBegins(c: Chunk)
    requires IsChunk(c)
    ensures Begins(ChunkText(c))
  {
    ChunkChars(c);
  }

  function BodyText(chunks: seq<Chunk>, e: End): string {
    ChunksText(chunks) + EndText(e)
  }

  lemma BodyFirst(chunks: seq<Chunk>, e: End)
    ensures BodyText(chunks, e) == if chunks == [] then EndText(e) else ChunkText(chunks[0]) + BodyText(chunks[1..], e)
  {
    if chunks != [] { assert ChunksText(chunks) == ChunkText(chunks[0]) + ChunksText(chunks[1..]); }
  }

  /** Where the terminator is found in a chunked body: inside the chunks exactly when one of them is not clean, else at the
      real end, or nowhere. */
  lemma {:induction false} BodyEndFound(chunks: seq<Chunk>, e: End)
    requires AreChunks(chunks) && IsEnd(e)
    ensures EndVerdict(BodyText(chunks, e), ZeroAtEnd(e), AllClean(chunks))
  {
    BodyFirst(chunks, e);
    if chunks == [] {
      EndFound(e);
    } else {
      FirstAndRest(chunks);
      BodyEndFound(chunks[1..], e);
      ChunkInFront(chunks[0], BodyText(chunks[1..], e), ZeroAtEnd(e), AllClean(chunks[1..]));
    }
  }

  /** Where the terminator is in a text that ends with its first blank line. */
  lemma TerminatorAtBlankLine(header: string)
    requires |header| >= 5 && Find(header, HEADER_END) == Some(|header| - 4)
    ensures Find(header, CHUNK_END) == if header[|header| - 5] == '0' then Some(|header| - 5) else None
  {
    var h := |header|;
    FindSpec(header, HEADER_END);
    forall j: nat
      ensures OccursAt(header, CHUNK_END, j) <==> j == h - 5 && header[h - 5] == '0'
    {
      ZeroThenBlankLine(header, j);
      if j + 5 <= h && OccursAt(header, HEADER_END, j + 1) {
        assert j + 1 >= h - 4;
      }
    }
    FindSpec(header, CHUNK_END);
    if header[h - 5] == '0' {
      FindIs(header, CHUNK_END, h - 5);
    }
  }

  /** The terminator is a zero before a blank line. */
  lemma ZeroThenBlankLine(s: string, j: nat)
    ensures OccursAt(s, CHUNK_END, j) <==> j + 5 <= |s| && s[j] == '0' && OccursAt(s, HEADER_END, j + 1)
  {
    ChunkEndChars(s, j);
    if j + 5 <= |s| {
      assert s[j + 1..j + 5] == [s[j + 1], s[j + 2], s[j + 3], s[j + 4]];
    }
  }

  /** The terminator is searched in the header as well, and is found there exactly when the last character before
      the blank line is a zero. */
  lemma TerminatorInHeader(header: string)
    requires ParseLines(header, None).Parsed? && HeaderBytes(header) == |header|
    ensures |header| >= 5 && Find(header, CHUNK_END) == if header[|header| - 5] == '0' then Some(|header| - 5) else None
  {
    HeaderEndAgrees(OneLine, header);
    FirstLineIsNotBlank(header);
    TerminatorAtBlankLine(header);
  }

  lemma HeaderBegins(header: string)
    requires ParseLines(header, None).Parsed?
    ensures Begins(header)
  {
    var line, rest := FirstSplit(header);
    SplitParsed(OneLine, header, line, rest, None);
    assert StartsWith(line, "HTTP/1.0") || StartsWith(line, "HTTP/1.1");
    assert line[0] == line[0..8][0] == 'H';
    assert header[0] == header[..|line|][0];
  }

  lemma FirstLineIsNotBlank(header: string)
    requires ParseLines(header, None).Parsed?
    ensures HeaderBytes(header) > 4
  {
    HeaderEndAgrees(OneLine, header);
    var i := HeaderBytes(header) - 4;
    if i == 0 {
      BlankLineHasLineEnd(header, 0);
    }
  }

  /** A whole header that announces chunks. */
  ghost predicate IsChunkedHeader(header: string) {
    && Detect(header).Some? && HeaderBytes(header) == |header| && Detect(header).value.encoding == Chunked
    && !WithoutContent(Detect(header).value.response.code)
  }

  /** A chunked response: a header, chunks, the last chunk and the trailer. */
  ghost predicate ChunkedParts(header: string, chunks: seq<Chunk>, e: End) {
    AreChunks(chunks) && IsEnd(e) && IsChunkedHeader(header)
  }

  function ResponseText(header: string, chunks: seq<Chunk>, e: End): string {
    header + BodyText(chunks, e)
  }

  /** The last character before the blank line of the header is a zero. */
  predicate ZeroInHeader(header: string) {
    |header| >= 5 && header[|header| - 5] == '0'
  }

  /** While a chunked response arrives, the decision rests on the terminator alone. */
  lemma ChunkedDecision(header: string, more: string)
    requires Detect(header).Some? && !WithoutContent(Detect(header).value.response.code)
    ensures Finished(header + more, None) == Decide(Detect(header).value, |header + more|, Find(header + more, CHUNK_END))
  {
    DetectStable(header, more);
  }

  lemma FoundInPrefix(all: string, n: nat)
    requires n <= |all|
    ensures Find(all[..n], CHUNK_END) ==
            if Find(all, CHUNK_END).Some? && n >= Find(all, CHUNK_END).value + 5 then Find(all, CHUNK_END) else None
  {
    if Find(all, CHUNK_END).Some? {
      FindInPrefix(all, CHUNK_END, n);
    } else if Find(all[..n], CHUNK_END).Some? {
      assert all == all[..n] + all[n..];
      FindStable(all[..n], all[n..], CHUNK_END);
    }
  }

  /** A text behind a header. */
  lemma BehindHeader(header: string, body: string, zero: bool, clean: bool)
    requires ParseLines(header, None).Parsed? && HeaderBytes(header) == |header| && EndVerdict(body, zero, clean)
    ensures EndVerdict(header + body, zero, clean && !ZeroInHeader(header))
  {
    TerminatorInHeader(header);
    FindInTwo(header, body);
    HeaderBegins(header);
    assert (header + body)[0] == header[0] && |header + body| == |header| + |body|;
  }

  /** Where the terminator is found in a well-formed chunked response. */
  lemma ResponseEndFound(header: string, chunks: seq<Chunk>, e: End)
    requires ChunkedParts(header, chunks, e)
    ensures EndVerdict(ResponseText(header, chunks, e), ZeroAtEnd(e), AllClean(chunks) && !ZeroInHeader(header))
    ensures |ResponseText(header, chunks, e)| >= |header| + 5
  {
    BodyEndFound(chunks, e);
    BehindHeader(header, BodyText(chunks, e), ZeroAtEnd(e), AllClean(chunks));
  }

  ghost predicate Done(data: string) {
    Finished(data, None).Says? && Finished(data, None).done
  }

  /** What is received of a chunked response is complete exactly when the terminator is in it. */
  lemma DonePrefix(header: string, chunks: seq<Chunk>, e: End, n: nat)
    requires ChunkedParts(header, chunks, e) && |header| <= n <= |ResponseText(header, chunks, e)|
    ensures var all := ResponseText(header, chunks, e); var r := Find(all, CHUNK_END);
            Finished(all[..n], None).Says? && (Done(all[..n]) <==> r.Some? && n >= r.value + 5)
  {
    var all := ResponseText(header, chunks, e);
    assert all[..n] == header + all[|header|..n];
    ChunkedDecision(header, all[|header|..n]);
    FoundInPrefix(all, n);
  }

  /** A part that has at least `n` bytes but not all counts as complete. */
  ghost predicate DoneEarly(all: string, n: nat) {
    exists m :: n <= m < |all| && Done(all[..m])
  }

  lemma DoneFrom(header: string, chunks: seq<Chunk>, e: End)
    requires ChunkedParts(header, chunks, e)
    ensures var all := ResponseText(header, chunks, e);
            && Finished(all, None).Says? && (Done(all) <==> Find(all, CHUNK_END).Some?)
            && (DoneEarly(all, |header|) <==> Find(all, CHUNK_END).Some? && Find(all, CHUNK_END).value < |all| - 5)
  {
    var all := ResponseText(header, chunks, e);
    var r := Find(all, CHUNK_END);
    DonePrefix(header, chunks, e, |all|);
    assert all[..|all|] == all;
    if DoneEarly(all, |header|) {
      var m :| |header| <= m < |all| && Done(all[..m]);
      DonePrefix(header, chunks, e, m);
    } else if r.Some? && r.value < |all| - 5 {
      ResponseEndFound(header, chunks, e);
      EarlyWitness(header, chunks, e, if r.value + 5 < |header| then |header| else r.value + 5);
    }
  }

  lemma EarlyWitness(header: string, chunks: seq<Chunk>, e: End, n: nat)
    requires ChunkedParts(header, chunks, e) && |header| <= n < |ResponseText(header, chunks, e)|
    requires var r := Find(ResponseText(header, chunks, e), CHUNK_END); r.Some? && n >= r.value + 5
    ensures DoneEarly(ResponseText(header, chunks, e), |header|)
  {
    DonePrefix(header, chunks, e, n);
  }

  lemma DoneMeans(all: string, n: nat, zero: bool, clean: bool)
    requires EndVerdict(all, zero, clean) && (Done(all) <==> Find(all, CHUNK_END).Some?)
    requires DoneEarly(all, n) <==> Find(all, CHUNK_END).Some? && Find(all, CHUNK_END).value < |all| - 5
    ensures (Done(all) <==> zero || !clean) && (Done(all) && !DoneEarly(all, n) <==> zero && clean)
  {
  }

  /** A well-formed chunked response is found complete exactly when the last line of its body ends in a zero, as it does without
      extension and trailer, or when header or chunks imitate the terminator. It is found complete at its real end and
      not before exactly when the last line ends in a zero and nothing imitates the terminator. */
  lemma ChunkedExact(header: string, chunks: seq<Chunk>, e: End)
    requires ChunkedParts(header, chunks, e)
    ensures var all := ResponseText(header, chunks, e);
            && Finished(all, None).Says?
            && (Done(all) <==> ZeroAtEnd(e) || ZeroInHeader(header) || !AllClean(chunks))
            && (Done(all) && !DoneEarly(all, |header|) <==> ZeroAtEnd(e) && !ZeroInHeader(header) && AllClean(chunks))
    ensures e.ext == "" && e.fields == [] ==> ZeroAtEnd(e)
  {
    DoneFrom(header, chunks, e);
    ResponseEndFound(header, chunks, e);
    DoneMeans(ResponseText(header, chunks, e), |header|, ZeroAtEnd(e), AllClean(chunks) && !ZeroInHeader(header));
    if e.ext == "" && e.fields == [] { PlainEndsInZero(e); }
  }

  lemma PlainEndsInZero(e: End)
    requires IsEnd(e) && e.ext == "" && e.fields == []
    ensures ZeroAtEnd(e)
  {
    assert EndLines(e)[0] == e.zeros;
  }

  /** When it is found at its real place, the length that is reported is that of the encoded body without its last five
      characters. */
  lemma ChunkedLength(header: string, chunks: seq<Chunk>, e: End)
    requires ChunkedParts(header, chunks, e) && |header| < WORD32 && |ResponseText(header, chunks, e)| < WORD
    requires ZeroAtEnd(e) && !ZeroInHeader(header) && AllClean(chunks)
    ensures var v := Finished(ResponseText(header, chunks, e), None);
            v.Says? && v.done && v.info.length == |ChunksText(chunks)| + |EndText(e)| - 5
  {
    ResponseEndFound(header, chunks, e);
    ChunkedDecision(header, BodyText(chunks, e));
    HeaderLengthKept(header);
  }

  /** With a zero before the blank line the response counts as complete with its header, and the length wraps around. */
  lemma ZeroBeforeBlankLine(header: string, more: string)
    requires IsChunkedHeader(header) && |header| < WORD32 && ZeroInHeader(header)
    ensures var v := Finished(header + more, None); v.Says? && v.done && v.info.length == WORD - 5
  {
    TerminatorInHeader(header);
    ChunkedDecision(header, more);
    FindStable(header, more, CHUNK_END);
    HeaderLengthKept(header);
  }
}
