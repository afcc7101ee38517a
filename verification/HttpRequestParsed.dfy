/** What the request parser returns always avoids the delimiters, so the round trip holds for these requests and no
    others: src/network/http_request.cpp. */
module HttpRequestParsed {
  import opened Options
  import opened Texts
  import opened Dictionary
  import opened HttpRequest
  import opened HttpRequestRoundTrip

  // ---------------------------------------------------------------------------------------------
  // Parts of texts
  // ---------------------------------------------------------------------------------------------

  lemma NoCrlfPart(s: string, i: nat, j: nat)
    requires NoCrlf(s) && i <= j <= |s|
    ensures NoCrlf(s[i..j])
  {
    forall k: nat
      ensures !OccursAt(s[i..j], CRLF, k)
    {
      CrlfChars(s[i..j], k);
      CrlfChars(s, i + k);
    }
  }

  /** Nothing is found before the first line end. */
  lemma LineIsClean(text: string)
    requires Find(text, CRLF).Some?
    ensures NoCrlf(text[..Find(text, CRLF).value])
  {
    var end := Find(text, CRLF).value;
    FindSpec(text, CRLF);
    forall k: nat
      ensures !OccursAt(text[..end], CRLF, k)
    {
      CrlfChars(text[..end], k);
      CrlfChars(text, k);
    }
  }

  /** A character is not between the start of a search for it and the place where it is found. */
  lemma NotBetween(s: string, c: char, from: nat, end: nat)
    requires from <= end <= |s|
    requires match FindFrom(s, [c], from) case None => true case Some(i) => end <= i
    ensures c !in s[from..end]
  {
    FindFromSpec(s, [c], from);
    forall k | from <= k < end
      ensures s[k] != c
    {
      CharAt(s, c, k);
    }
  }

  // ---------------------------------------------------------------------------------------------
  // Queries, headers and the request line
  // ---------------------------------------------------------------------------------------------

  /** A text from the request line between its words. */
  ghost predicate Word(s: string) {
    ' ' !in s && NoCrlf(s)
  }

  lemma WordPart(s: string, i: nat, j: nat)
    requires Word(s) && i <= j <= |s|
    ensures Word(s[i..j])
  {
    NoCrlfPart(s, i, j);
  }

  ghost predicate QueriesOk(q: seq<Entry>) {
    Sorted(q) && forall e :: e in q ==> QueryOk(e)
  }

  lemma OneQueryOk(text: string, eq: nat, end: nat, q: seq<Entry>)
    requires Word(text) && QueriesOk(q) && Find(text, "=") == Some(eq) && eq < |text| && end == ValueEnd(text, eq) && eq + 1 <= end
    ensures QueriesOk(Assign(q, text[0..eq], text[eq + 1..end]))
  {
    NotBetween(text, '=', 0, eq);
    NotBetween(text, '&', eq, end);
    assert forall c :: c in text[eq + 1..end] ==> c in text[eq..end];
    WordPart(text, 0, eq);
    WordPart(text, eq + 1, end);
    AssignSorted(q, text[0..eq], text[eq + 1..end]);
  }

  lemma {:induction false} ParsedQueriesOk(text: string, q: seq<Entry>)
    requires Word(text) && QueriesOk(q)
    ensures QueriesOk(ParsedQueries(text, q))
    decreases |text|
  {
    if Find(text, "=").Some? {
      var eq := Find(text, "=").value;
      FindSpec(text, "=");
      EqualsIsNoAmpersand(text, eq);
      var end := ValueEnd(text, eq);
      OneQueryOk(text, eq, end, q);
      if end + 1 <= |text| {
        WordPart(text, end + 1, |text|);
        assert text[end + 1..|text|] == text[end + 1..];
        ParsedQueriesOk(text[end + 1..], Assign(q, text[0..eq], text[eq + 1..end]));
      }
    }
  }

  ghost predicate HeadersOk(h: seq<Entry>) {
    Sorted(h) && forall e :: e in h ==> HeaderOk(e)
  }

  lemma {:induction false} SpacesSkipped(s: string, i: nat)
    requires i <= |s|
    ensures var v := s[SkipSpaces(s, i)..]; v == "" || v[0] != ' '
    decreases |s| - i
  {
    if i < |s| && s[i] == ' ' { SpacesSkipped(s, i + 1); }
  }

  lemma ParsedHeaderOk(line: string, h: seq<Entry>)
    requires NoCrlf(line) && HeadersOk(h)
    ensures HeadersOk(ParsedHeader(line, h))
  {
    var r := Find(line, ":");
    if r.Some? {
      var i, j := r.value, SkipSpaces(line, r.value + 1);
      NotBetween(line, ':', 0, i);
      NoCrlfPart(line, 0, i);
      NoCrlfPart(line, j, |line|);
      SpacesSkipped(line, i + 1);
      assert line[0..i] == line[..i] && line[j..|line|] == line[j..];
      AssignSorted(h, line[..i], line[j..]);
    }
  }

  lemma {:induction false} ParsedHeadersOk(text: string, h: seq<Entry>)
    requires HeadersOk(h)
    ensures HeadersOk(ParsedHeaders(text, h))
    decreases |text|
  {
    if Find(text, CRLF).Some? {
      var end := Find(text, CRLF).value;
      var line, rest := text[..end], text[end + 2..];
      FirstHeader(ParsedHeader, text, line, rest, h);
      if end > 0 {
        LineIsClean(text);
        ParsedHeaderOk(line, h);
        ParsedHeadersOk(rest, ParsedHeader(line, h));
      }
    } else {
      NoHeader(ParsedHeader, text, h);
    }
  }

  ghost predicate TargetOk(r: Request) {
    Word(r.path) && '?' !in r.path && QueriesOk(r.queries)
  }

  lemma ParsedTargetOk(target: string, r: Request)
    requires Word(target) && TargetOk(r)
    ensures TargetOk(ParsedTarget(target, r))
  {
    var i := Find(target, "?");
    if i.Some? {
      NotBetween(target, '?', 0, i.value);
      WordPart(target, 0, i.value);
      WordPart(target, i.value + 1, |target|);
      assert target[0..i.value] == target[..i.value] && target[i.value + 1..|target|] == target[i.value + 1..];
      ParsedQueriesOk(target[i.value + 1..], r.queries);
    } else {
      NotBetween(target, '?', 0, |target|);
      assert target[0..|target|] == target;
    }
  }

  lemma ParsedLineOk(line: string)
    requires NoCrlf(line)
    ensures TargetOk(ParsedLine(line)) && ParsedLine(line).headers == []
  {
    ShortIsClean("");
    var i := Find(line, " ");
    if i.Some? {
      var r := DEFAULT.(verb := MethodOf(line[..i.value], GET));
      var j := FindFrom(line, " ", i.value + 1);
      if j.Some? {
        NotBetween(line, ' ', i.value + 1, j.value);
        NoCrlfPart(line, i.value + 1, j.value);
        ParsedTargetOk(line[i.value + 1..j.value], r);
      }
    }
  }

  // ---------------------------------------------------------------------------------------------
  // The round trip, both ways
  // ---------------------------------------------------------------------------------------------

  /** Whatever the bytes, the parsed request avoids the delimiters. */
  lemma ParsedIsPrintable(data: string)
    ensures Printable(Deserialized(data))
  {
    var end := Find(data, CRLF);
    if end.Some? {
      LineIsClean(data);
      ParsedLineOk(data[..end.value]);
      ParsedHeadersOk(data[end.value + 2..], []);
    } else {
      ShortIsClean("");
    }
  }

  /** Printing and parsing gives a request back exactly if it avoids the delimiters. */
  lemma RoundTripExactly(r: Request)
    ensures Deserialized(Serialized(r)) == r <==> Printable(r)
  {
    if Printable(r) {
      RoundTrip(r);
    } else {
      ParsedIsPrintable(Serialized(r));
    }
  }

  /** What was parsed once is stable: printed and parsed again it is the same request. */
  lemma ParsedAgain(data: string)
    ensures Deserialized(Serialized(Deserialized(data))) == Deserialized(data)
  {
    ParsedIsPrintable(data);
    RoundTrip(Deserialized(data));
  }
}
