/** The text of messages as section 2.1 of RFC 9112 lays it out, for what src/network/http_request.cpp prints and
    src/network/http_response.cpp reads. */
module HttpWire {
  import opened Dictionary

  /** A field: its name, a colon and a space, its value, and a line end. */
  function FieldLine(e: Entry): string {
    e.0 + ": " + e.1 + "\r\n"
  }

  function FieldLines(fields: seq<Entry>): string {
    if fields == [] then ""
    else
      var n := |fields| - 1;
      FieldLines(fields[..n]) + FieldLine(fields[n])
  }

  lemma InTwo(a: string, b: string, c: string)
    ensures a + b + c == a + (b + c)
  {
  }

  lemma {:induction false} FieldLinesFirst(fields: seq<Entry>)
    requires fields != []
    ensures FieldLines(fields) == FieldLine(fields[0]) + FieldLines(fields[1..])
  {
    var n := |fields| - 1;
    if n == 0 {
      assert fields[..0] == [] && fields[1..] == [];
    } else {
      FieldLinesFirst(fields[..n]);
      assert fields[..n][1..] == fields[1..][..n - 1] && fields[1..][n - 1] == fields[n] && fields[..n][0] == fields[0];
      InTwo(FieldLine(fields[0]), FieldLines(fields[1..][..n - 1]), FieldLine(fields[n]));
    }
  }

  /** The texts with the separator between them. */
  function Join(texts: seq<string>, separator: string): string {
    if texts == [] then ""
    else
      var n := |texts| - 1;
      (if n == 0 then "" else Join(texts[..n], separator) + separator) + texts[n]
  }

  lemma {:induction false} JoinFirst(texts: seq<string>, separator: string)
    requires |texts| > 1
    ensures Join(texts, separator) == texts[0] + separator + Join(texts[1..], separator)
  {
    var n := |texts| - 1;
    assert texts[1..][n - 1] == texts[n];
    if n == 1 {
      assert texts[..1] == [texts[0]] && texts[1..] == [texts[1]];
    } else {
      JoinFirst(texts[..n], separator);
      assert texts[..n][1..] == texts[1..][..n - 1] && texts[..n][0] == texts[0];
      JoinStep(texts[0], separator, Join(texts[1..][..n - 1], separator), texts[n]);
    }
  }

  lemma JoinStep(a: string, separator: string, b: string, c: string)
    ensures a + separator + b + separator + c == a + separator + (b + separator + c)
  {
  }

  /** Names and values with an equals sign between them. */
  function Pairs(q: seq<Entry>): (texts: seq<string>)
    ensures |texts| == |q|
  {
    seq(|q|, i requires 0 <= i < |q| => q[i].0 + "=" + q[i].1)
  }

  /** The first field of that name has that value. */
  ghost predicate FirstField(fields: seq<Entry>, name: string, value: string) {
    exists i :: 0 <= i < |fields| && fields[i] == (name, value) && forall j :: 0 <= j < i ==> fields[j].0 != name
  }

  /** The last field of that name has that value. */
  ghost predicate LastField(fields: seq<Entry>, name: string, value: string) {
    exists i :: 0 <= i < |fields| && fields[i] == (name, value) && forall j :: i < j < |fields| ==> fields[j].0 != name
  }
}
