/** When the normal forms of the receiving service leave alone what src/cloud/aws_signer.cpp sends: path, header values, queries. */
module AwsNormal {
  import opened Options
  import opened Texts
  import opened Dictionary
  import opened HttpRequest
  import opened HttpRequestRoundTrip
  import opened HttpWire
  import opened HttpRequestWire
  import opened UrlEncoding
  import opened AwsSigner
  import opened AwsSignerTheorems
  import opened AwsReceiver

  // ---------------------------------------------------------------------------------------------
  // Cutting what was joined
  // ---------------------------------------------------------------------------------------------

  lemma CutNone(s: string, mark: char)
    requires mark !in s
    ensures Cut(s, mark) == [s]
  {
    CharMissing(s, mark, 0);
  }

  lemma CutFront(a: string, mark: char, b: string)
    requires mark !in a
    ensures Cut(a + [mark] + b, mark) == [a] + Cut(b, mark)
  {
    SplitAt(a, mark, b);
  }

  ghost predicate Without(texts: seq<string>, mark: char) {
    forall x :: x in texts ==> mark !in x
  }

  lemma {:induction false} CutJoined(texts: seq<string>, mark: char)
    requires texts != [] && Without(texts, mark)
    ensures Cut(Join(texts, [mark]), mark) == texts
  {
    assert texts[0] in texts && forall x :: x in texts[1..] ==> x in texts;
    if |texts| == 1 {
      assert Join(texts, [mark]) == texts[0];
      CutNone(texts[0], mark);
    } else {
      JoinFirst(texts, [mark]);
      CutJoined(texts[1..], mark);
      CutFront(texts[0], mark, Join(texts[1..], [mark]));
    }
  }

  lemma NotInside(a: string, b: string, d: string, mark: char)
    requires mark !in a && mark !in b && mark !in d
    ensures mark !in a + b + d && mark !in "" + d
  {
  }

  lemma WithoutFront(texts: seq<string>, n: nat, mark: char)
    requires Without(texts, mark) && n < |texts|
    ensures Without(texts[..n], mark) && mark !in texts[n]
  {
    assert texts[n] in texts && forall x :: x in texts[..n] ==> x in texts;
  }

  lemma {:induction false} JoinWithout(texts: seq<string>, separator: string, mark: char)
    requires Without(texts, mark) && mark !in separator
    ensures mark !in Join(texts, separator)
  {
    if texts != [] {
      var n := |texts| - 1;
      WithoutFront(texts, n, mark);
      JoinWithout(texts[..n], separator, mark);
      NotInside(Join(texts[..n], separator), separator, texts[n], mark);
      assert Join(texts, separator) == (if n == 0 then "" else Join(texts[..n], separator) + separator) + texts[n];
    }
  }

  lemma JoinFive(a: string, b: string, d: string, e: string, f: string, separator: string)
    ensures Join([a, b, d, e, f], separator) == a + separator + b + separator + d + separator + e + separator + f
    ensures Join([b, d, e, f], separator) == b + separator + d + separator + e + separator + f
  {
    JoinOne([a, b, d, e, f], separator);
    JoinOne([a, b, d, e], separator);
    JoinOne([a, b, d], separator);
    JoinOne([a, b], separator);
    JoinOne([b, d, e, f], separator);
    JoinOne([b, d, e], separator);
    JoinOne([b, d], separator);
    assert [a, b, d, e, f][..4] == [a, b, d, e] && [a, b, d, e][..3] == [a, b, d] && [a, b, d][..2] == [a, b] && [a, b][..1] == [a];
    assert [b, d, e, f][..3] == [b, d, e] && [b, d, e][..2] == [b, d] && [b, d][..1] == [b];
  }

  lemma JoinOne(texts: seq<string>, separator: string)
    requires |texts| > 1
    ensures var n := |texts| - 1; Join(texts, separator) == Join(texts[..n], separator) + separator + texts[n]
    ensures |texts| == 2 ==> Join(texts, separator) == texts[0] + separator + texts[1]
  {
  }

  // ---------------------------------------------------------------------------------------------
  // The path
  // ---------------------------------------------------------------------------------------------

  predicate IsUpperHex(c: char) {
    '0' <= c <= '9' || 'A' <= c <= 'F'
  }

  /** Two digits that stand for a character that has to be escaped. */
  predicate IsEscape(high: char, low: char) {
    IsUpperHex(high) && IsUpperHex(low) && !PathChar((16 * Unhex(high) + Unhex(low)) as char)
  }

  /** Only characters that stand for themselves, and escapes for others. */
  predicate Escaped(path: string) {
    || path == ""
    || (PathChar(path[0]) && Escaped(path[1..]))
    || (|path| >= 3 && path[0] == '%' && IsEscape(path[1], path[2]) && Escaped(path[3..]))
  }

  lemma HexUnhexed(c: char)
    requires IsUpperHex(c)
    ensures 0 <= Unhex(c) < 16 && Hex(Unhex(c)) == c
  {
  }

  lemma HexDigits(n: nat)
    requires n < 16
    ensures IsUpperHex(Hex(n)) && Unhex(Hex(n)) == n
  {
  }

  lemma TwoDigits(a: nat, b: nat)
    requires a < 16 && b < 16
    ensures var n := 16 * a + b; n / 16 == a && n % 16 == b && n < 256
  {
  }

  /** The two digits written for a character that has to be escaped are the two it was read from. */
  lemma SameDigits(high: char, low: char, c: char)
    requires var n := 16 * Unhex(high) + Unhex(low); c == if 0 <= n < 256 then n as char else '?'
    requires !PathChar(c)
    ensures IsByte(c) && (high == Hex(c as int / 16) && low == Hex(c as int % 16) <==> IsEscape(high, low))
  {
    if IsUpperHex(high) && IsUpperHex(low) {
      HexUnhexed(high);
      HexUnhexed(low);
      TwoDigits(Unhex(high), Unhex(low));
    } else {
      HexDigits(c as int / 16);
      HexDigits(c as int % 16);
    }
  }

  /** A character decoded and encoded, in front of a text. */
  lemma FrontNormal(c: char, rest: string)
    ensures PathEncoded([c] + rest) == (if PathChar(c) then [c] else if IsByte(c) then EncodeChar(c) else "?") + PathEncoded(rest)
  {
    assert ([c] + rest)[1..] == rest;
  }

  lemma PlainStep(c: char, rest: string)
    requires c != '%' || |rest| < 2
    ensures NormalPath([c] + rest) == [c] + rest <==> PathChar(c) && NormalPath(rest) == rest
  {
    assert ([c] + rest)[1..] == rest;
    FrontNormal(c, Decode(rest));
    var normal := NormalPath([c] + rest);
    if PathChar(c) {
      assert normal == [c] + NormalPath(rest);
      assert normal[1..] == NormalPath(rest);
    } else if IsByte(c) {
      assert normal[0] == '%' && |normal| >= 3;
    } else {
      assert normal[0] == '?';
    }
  }

  lemma EscapeStep(high: char, low: char, rest: string)
    ensures NormalPath(['%', high, low] + rest) == ['%', high, low] + rest <==> IsEscape(high, low) && NormalPath(rest) == rest
  {
    var path := ['%', high, low] + rest;
    var n := 16 * Unhex(high) + Unhex(low);
    var c := if 0 <= n < 256 then n as char else '?';
    assert path[3..] == rest;
    assert Decode(path) == [c] + Decode(rest);
    FrontNormal(c, Decode(rest));
    var normal := NormalPath(path);
    if PathChar(c) {
      assert normal[0] == c;
    } else {
      SameDigits(high, low, c);
      assert normal == ['%', Hex(c as int / 16), Hex(c as int % 16)] + NormalPath(rest);
      assert normal[3..] == NormalPath(rest) && normal[1] == Hex(c as int / 16) && normal[2] == Hex(c as int % 16);
    }
  }

  /** The normal form of a path is the path itself exactly when it is escaped already. */
  lemma {:induction false} EscapedExactly(path: string)
    ensures NormalPath(path) == path <==> Escaped(path)
  {
    if path == "" {
    } else if path[0] == '%' && |path| >= 3 {
      assert path == ['%', path[1], path[2]] + path[3..];
      EscapedExactly(path[3..]);
      EscapeStep(path[1], path[2], path[3..]);
    } else {
      assert path == [path[0]] + path[1..];
      EscapedExactly(path[1..]);
      PlainStep(path[0], path[1..]);
    }
  }

  // ---------------------------------------------------------------------------------------------
  // Header values
  // ---------------------------------------------------------------------------------------------

  /** No space at the end, and no two next to each other. */
  ghost predicate Tidy(s: string) {
    (s != "" ==> s[|s| - 1] != ' ') && forall i: nat :: !OccursAt(s, "  ", i)
  }

  lemma {:induction false} TidyStays(s: string)
    requires Tidy(s)
    ensures Squeezed(s) == s
  {
    if s != "" {
      var rest := s[1..];
      assert s == [s[0]] + rest;
      forall i: nat
        ensures !OccursAt(rest, "  ", i)
      {
        OccursInSuffix([s[0]], rest, "  ", i);
        assert !OccursAt(s, "  ", i + 1);
      }
      TidyStays(rest);
      assert !OccursAt(s, "  ", 0);
    }
  }

  // ---------------------------------------------------------------------------------------------
  // Queries
  // ---------------------------------------------------------------------------------------------

  /** Neither name nor value has one of the marks of a query text. */
  ghost predicate Unmarked(q: seq<Entry>) {
    forall i :: 0 <= i < |q| ==> '=' !in q[i].0 && '&' !in q[i].0 && '=' !in q[i].1 && '&' !in q[i].1
  }

  lemma PairsRead(q: seq<Entry>)
    requires Unmarked(q) && q != []
    ensures Cut(Join(Pairs(q), "&"), '&') == Pairs(q) && Join(Pairs(q), "&") != ""
  {
    forall x | x in Pairs(q)
      ensures '&' !in x
    {
      var i :| 0 <= i < |q| && x == Pairs(q)[i];
      assert x == q[i].0 + "=" + q[i].1;
    }
    CutJoined(Pairs(q), '&');
  }

  lemma PairsApart(a: seq<Entry>, b: seq<Entry>)
    requires Unmarked(a) && Unmarked(b) && Pairs(a) == Pairs(b)
    ensures a == b
  {
    forall i | 0 <= i < |a|
      ensures a[i] == b[i]
    {
      assert Pairs(a)[i] == Pairs(b)[i];
      PairRead(a[i].0, a[i].1);
      PairRead(b[i].0, b[i].1);
    }
  }

  lemma PairRead(k: string, v: string)
    requires '=' !in k && '=' !in v
    ensures Cut(k + "=" + v, '=') == [k, v]
  {
    CutNone(v, '=');
    CutFront(k, '=', v);
  }

  /** Different queries without marks have different texts. */
  lemma QueriesApart(a: seq<Entry>, b: seq<Entry>)
    requires Unmarked(a) && Unmarked(b) && Join(Pairs(a), "&") == Join(Pairs(b), "&")
    ensures a == b
  {
    if a != [] { PairsRead(a); }
    if b != [] { PairsRead(b); }
    if a != [] && b != [] { PairsApart(a, b); }
  }

  lemma EncodedUnmarked(q: seq<Entry>)
    requires QueryBytes(q)
    ensures Unmarked(Encoded(q)) && |Encoded(q)| == |q|
  {
    EncodedSize(q);
    forall i | 0 <= i < |q|
      ensures var e := Encoded(q)[i]; '=' !in e.0 && '&' !in e.0 && '=' !in e.1 && '&' !in e.1
    {
      EncodedAtIndex(q, i);
      EncodedIsClean(q[i].0);
      EncodedIsClean(q[i].1);
    }
  }

  lemma {:induction false} AssignAllFrom(done: seq<Entry>, q: seq<Entry>)
    requires Sorted(done)
    ensures Sorted(AssignAll(done, q)) && forall e :: e in AssignAll(done, q) ==> e in done || e in q
    decreases |q|
  {
    if q != [] {
      AssignSorted(done, q[0].0, q[0].1);
      AssignAllFrom(Assign(done, q[0].0, q[0].1), q[1..]);
    }
  }

  lemma AssignedUnmarked(e: seq<Entry>)
    requires Unmarked(e)
    ensures Unmarked(AssignAll([], e))
  {
    var back := AssignAll([], e);
    AssignAllFrom([], e);
    forall i | 0 <= i < |back|
      ensures '=' !in back[i].0 && '&' !in back[i].0 && '=' !in back[i].1 && '&' !in back[i].1
    {
      assert back[i] in e;
    }
  }

  lemma SortedStays(e: seq<Entry>)
    ensures AssignAll([], e) == e <==> Sorted(e)
  {
    AssignAllFrom([], e);
    if Sorted(e) {
      assert [] + e == e;
      AssignAllSorted(e, []);
    }
  }

  /** Read from their text, queries give the same text exactly when they are in order. */
  lemma OrderDecides(e: seq<Entry>)
    requires Unmarked(e)
    ensures Join(Pairs(AssignAll([], e)), "&") == Join(Pairs(e), "&") <==> Sorted(e)
  {
    SortedStays(e);
    AssignedUnmarked(e);
    if Join(Pairs(AssignAll([], e)), "&") == Join(Pairs(e), "&") { QueriesApart(AssignAll([], e), e); }
  }

  /** The service reads the queries as they were signed exactly when their encoded names are in order. */
  lemma QueriesInOrder(q: seq<Entry>)
    requires QueryBytes(q)
    ensures Join(Pairs(AssignAll([], Encoded(q))), "&") == EncodedQuery(q) <==> Sorted(Encoded(q))
  {
    EncodedUnmarked(q);
    OrderDecides(Encoded(q));
    QueryTextJoined(Encoded(q));
  }
}
