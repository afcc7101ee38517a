/** Percent encoding of query parameters: `encodeUrlParameters` of src/utils/utils.cpp, against section 2.3 of RFC 3986. */
module UrlEncoding {

  /** Letters, digits and the four marks that need no encoding. */
  predicate Unreserved(c: char) {
    'a' <= c <= 'z' || 'A' <= c <= 'Z' || '0' <= c <= '9' || c == '-' || c == '_' || c == '.' || c == '~'
  }

  predicate AllUnreserved(s: string) {
    forall i :: 0 <= i < |s| ==> Unreserved(s[i])
  }

  predicate IsByte(c: char) {
    c as int < 256
  }

  predicate Bytes(s: string) {
    forall i :: 0 <= i < |s| ==> IsByte(s[i])
  }

  function Hex(n: nat): (c: char)
    requires n < 16
    ensures Unreserved(c)
  {
    if n < 10 then ('0' as int + n) as char else ('A' as int + n - 10) as char
  }

  function Unhex(c: char): int {
    if c <= '9' then c as int - '0' as int else c as int - 'A' as int + 10
  }

  function EncodeChar(c: char): string
    requires IsByte(c)
  {
    if Unreserved(c) then [c] else ['%', Hex(c as int / 16), Hex(c as int % 16)]
  }

  /** Section 2.3 of RFC 3986: the characters that stand for themselves, spelled out. */
  const LETTERS := "ABCDEFGHIJKLMNOPQRSTUVWXYZ"
  const SMALL_LETTERS := "abcdefghijklmnopqrstuvwxyz"
  const OTHERS := "0123456789-_.~"
  const HEX_DIGITS := "0123456789ABCDEF"

  lemma LetterAt(c: char)
    ensures 'A' <= c <= 'Z' <==> c in LETTERS
  {
    if 'A' <= c <= 'Z' { assert LETTERS[c as int - 'A' as int] == c; }
  }

  lemma SmallLetterAt(c: char)
    ensures 'a' <= c <= 'z' <==> c in SMALL_LETTERS
  {
    if 'a' <= c <= 'z' { assert SMALL_LETTERS[c as int - 'a' as int] == c; }
  }

  lemma OtherAt(c: char)
    ensures '0' <= c <= '9' || c == '-' || c == '_' || c == '.' || c == '~' <==> c in OTHERS
  {
    if '0' <= c <= '9' { assert OTHERS[c as int - '0' as int] == c; }
    if c == '-' || c == '_' || c == '.' || c == '~' {
      assert OTHERS[10] == '-' && OTHERS[11] == '_' && OTHERS[12] == '.' && OTHERS[13] == '~';
    }
  }

  lemma HexAt(n: nat)
    requires n < 16
    ensures Hex(n) == HEX_DIGITS[n]
  {
  }

  /** Every other byte becomes a percent sign and two hexadecimal digits in upper case. */
  lemma EncodedByTable(c: char)
    requires IsByte(c)
    ensures EncodeChar(c) ==
            if c in LETTERS || c in SMALL_LETTERS || c in OTHERS then [c]
            else "%" + [HEX_DIGITS[c as int / 16], HEX_DIGITS[c as int % 16]]
  {
    LetterAt(c);
    SmallLetterAt(c);
    OtherAt(c);
    HexAt(c as int / 16);
    HexAt(c as int % 16);
  }

  function Encode(s: string): string
    requires Bytes(s)
  {
    if s == "" then "" else EncodeChar(s[0]) + Encode(s[1..])
  }

  method EncodeUrlParameters(s: string) returns (r: string)
    requires Bytes(s)
    ensures r == Encode(s)
  {
    r := "";
    var i := 0;
    while i < |s|
      invariant 0 <= i <= |s| && Encode(s) == r + Encode(s[i..])
    {
      ghost var before := r;
      var c := s[i];
      if Unreserved(c) {
        r := r + [c];
      } else {
        r := r + ['%'];
        r := r + [Hex(c as int / 16)];
        r := r + [Hex(c as int % 16)];
      }
      assert r == before + EncodeChar(c);
      EncodeStep(s, i, before);
      i := i + 1;
    }
  }

  lemma EncodeStep(s: string, i: nat, before: string)
    requires Bytes(s) && i < |s|
    ensures before + Encode(s[i..]) == (before + EncodeChar(s[i])) + Encode(s[i + 1..])
  {
    assert s[i..][1..] == s[i + 1..];
  }

  /** What a server does with the text. */
  function Decode(s: string): string {
    if s == "" then ""
    else if s[0] == '%' && |s| >= 3 then
      var n := 16 * Unhex(s[1]) + Unhex(s[2]);
      [if 0 <= n < 256 then n as char else '?'] + Decode(s[3..])
    else [s[0]] + Decode(s[1..])
  }

  lemma DecodeChar(c: char, rest: string)
    requires IsByte(c)
    ensures Decode(EncodeChar(c) + rest) == [c] + Decode(rest)
  {
    var s := EncodeChar(c) + rest;
    if Unreserved(c) {
      assert s[1..] == rest;
    } else {
      HexUnhex(c as int / 16);
      HexUnhex(c as int % 16);
      assert s[3..] == rest && s[0] == '%';
    }
  }

  lemma HexUnhex(n: nat)
    requires n < 16
    ensures Unhex(Hex(n)) == n
  {
  }

  /** Decoding gives back what was encoded, so different texts have different encodings. */
  lemma {:induction false} DecodeEncode(s: string)
    requires Bytes(s)
    ensures Decode(Encode(s)) == s
  {
    if s != "" {
      DecodeEncode(s[1..]);
      DecodeChar(s[0], Encode(s[1..]));
    }
  }

  predicate EncodedChar(c: char) {
    Unreserved(c) || c == '%'
  }

  /** An encoded text consists of unreserved characters and percent signs, so it has none of the delimiters of a request. */
  lemma {:induction false} EncodedChars(s: string)
    requires Bytes(s)
    ensures Bytes(Encode(s)) && forall i :: 0 <= i < |Encode(s)| ==> EncodedChar(Encode(s)[i])
  {
    if s != "" { EncodedChars(s[1..]); }
  }

  /** Encoding never shortens, and keeps the length, and the text, exactly when every character is unreserved. */
  lemma {:induction false} EncodeLength(s: string)
    requires Bytes(s)
    ensures |Encode(s)| >= |s| && (|Encode(s)| == |s| <==> AllUnreserved(s)) && (AllUnreserved(s) ==> Encode(s) == s)
  {
    if s != "" {
      EncodeLength(s[1..]);
      assert AllUnreserved(s) <==> Unreserved(s[0]) && AllUnreserved(s[1..]) by {
        assert forall i :: 1 <= i < |s| ==> s[i] == s[1..][i - 1];
      }
    }
  }

  lemma {:induction false} PercentInside(s: string)
    requires Bytes(s) && !AllUnreserved(s)
    ensures !AllUnreserved(Encode(s))
  {
    if !Unreserved(s[0]) {
      assert Encode(s)[0] == '%';
    } else {
      assert forall i :: 1 <= i < |s| ==> s[i] == s[1..][i - 1];
      PercentInside(s[1..]);
      assert Encode(s)[1..] == Encode(s[1..]);
      assert forall i :: 0 <= i < |Encode(s[1..])| ==> Encode(s[1..])[i] == Encode(s)[i + 1];
    }
  }

  /** Encoding a second time grows the text exactly when it was changed the first time. */
  lemma EncodeTwice(s: string)
    requires Bytes(s)
    ensures Bytes(Encode(s))
    ensures |Encode(Encode(s))| >= |Encode(s)|
    ensures Encode(Encode(s)) == Encode(s) <==> AllUnreserved(s)
    ensures |Encode(Encode(s))| == |Encode(s)| <==> AllUnreserved(s)
  {
    EncodedChars(s);
    EncodeLength(s);
    EncodeLength(Encode(s));
    if !AllUnreserved(s) { PercentInside(s); }
  }
}
