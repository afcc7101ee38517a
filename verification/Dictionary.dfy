/** `std::map<std::string, std::string>`: entries in the order of their keys, each key once. */
module Dictionary {
  import opened Options

  type Entry = (string, string)

  /** `std::string::operator<` on bytes. */
  predicate Less(a: string, b: string) {
    if b == "" then false
    else if a == "" then true
    else a[0] < b[0] || (a[0] == b[0] && Less(a[1..], b[1..]))
  }

  lemma {:induction false} LessTotal(a: string, b: string)
    ensures a == b || Less(a, b) || Less(b, a)
  {
    if a != "" && b != "" && a[0] == b[0] {
      LessTotal(a[1..], b[1..]);
      assert a == [a[0]] + a[1..] && b == [b[0]] + b[1..];
    }
  }

  lemma {:induction false} LessIrreflexive(a: string)
    ensures !Less(a, a)
  {
    if a != "" { LessIrreflexive(a[1..]); }
  }

  lemma {:induction false} LessTransitive(a: string, b: string, c: string)
    requires Less(a, b) && Less(b, c)
    ensures Less(a, c)
  {
    if a != "" && a[0] == b[0] == c[0] {
      LessTransitive(a[1..], b[1..], c[1..]);
    }
  }

  /** The first difference decides, and a text comes before its own continuations. */
  lemma {:induction false} LessIs(a: string, b: string)
    ensures Less(a, b) <==> exists k: nat :: DecidedAt(a, b, k)
  {
    if b != "" && a != "" && a[0] == b[0] {
      LessIs(a[1..], b[1..]);
      if Less(a, b) {
        var k: nat :| DecidedAt(a[1..], b[1..], k);
        forall i | 0 <= i < k + 1
          ensures a[i] == b[i]
        {
          if i > 0 { assert a[1..][i - 1] == b[1..][i - 1]; }
        }
        assert DecidedAt(a, b, k + 1);
      }
      if k: nat :| DecidedAt(a, b, k) {
        assert k > 0;
        assert DecidedAt(a[1..], b[1..], k - 1);
      }
    } else if Less(a, b) {
      assert DecidedAt(a, b, 0);
    }
  }

  /** The texts agree before position `k`, where the first has ended or has the smaller byte. */
  predicate DecidedAt(a: string, b: string, k: nat) {
    k <= |a| && k < |b| && (forall i :: 0 <= i < k ==> a[i] == b[i]) && (k == |a| || a[k] < b[k])
  }

  ghost predicate Sorted(d: seq<Entry>) {
    forall i, j :: 0 <= i < j < |d| ==> Less(d[i].0, d[j].0)
  }

  function Get(d: seq<Entry>, k: string): Option<string> {
    if d == [] then None else if d[0].0 == k then Some(d[0].1) else Get(d[1..], k)
  }

  lemma {:induction false} GetIs(d: seq<Entry>, k: string)
    ensures Get(d, k).Some? <==> exists i :: 0 <= i < |d| && d[i].0 == k
    ensures Get(d, k).Some? ==> (k, Get(d, k).value) in d
  {
    if d != [] && d[0].0 != k {
      GetIs(d[1..], k);
      assert forall i :: 0 < i < |d| ==> d[i] == d[1..][i - 1];
    }
  }

  /** `map.emplace(k, v)`: an entry with that key stays as it is. */
  function Emplace(d: seq<Entry>, k: string, v: string): (r: seq<Entry>) {
    if d == [] then [(k, v)]
    else if k == d[0].0 then d
    else if Less(k, d[0].0) then [(k, v)] + d
    else [d[0]] + Emplace(d[1..], k, v)
  }

  /** `map[k] = v`. */
  function Assign(d: seq<Entry>, k: string, v: string): (r: seq<Entry>) {
    if d == [] then [(k, v)]
    else if k == d[0].0 then [(k, v)] + d[1..]
    else if Less(k, d[0].0) then [(k, v)] + d
    else [d[0]] + Assign(d[1..], k, v)
  }

  lemma {:induction false} EmplaceGet(d: seq<Entry>, k: string, v: string, x: string)
    requires Sorted(d)
    ensures Sorted(Emplace(d, k, v))
    ensures Get(Emplace(d, k, v), x) == if x == k && Get(d, k).None? then Some(v) else Get(d, x)
    ensures forall e :: e in Emplace(d, k, v) ==> e in d || e == (k, v)
  {
    if d == [] {
    } else if k == d[0].0 {
    } else if Less(k, d[0].0) {
      BelowAll(d, k);
      assert ([(k, v)] + d)[1..] == d;
    } else {
      LessTotal(k, d[0].0);
      EmplaceGet(d[1..], k, v, x);
      var r := Emplace(d[1..], k, v);
      assert ([d[0]] + r)[1..] == r;
      forall j | 0 <= j < |r|
        ensures Less(d[0].0, r[j].0)
      {
        assert r[j] in r;
      }
    }
  }

  /** A key below the first entry is below all entries, so it is not there. */
  lemma BelowAll(d: seq<Entry>, k: string)
    requires Sorted(d) && d != [] && Less(k, d[0].0)
    ensures forall j :: 0 <= j < |d| ==> Less(k, d[j].0) && d[j].0 != k
    ensures Get(d, k).None?
  {
    forall j | 0 <= j < |d|
      ensures Less(k, d[j].0) && d[j].0 != k
    {
      if j > 0 { LessTransitive(k, d[0].0, d[j].0); }
      LessIrreflexive(k);
    }
  }

  /** An entry above all others goes to the end. */
  lemma {:induction false} AssignAtEnd(d: seq<Entry>, k: string, v: string)
    requires forall i :: 0 <= i < |d| ==> Less(d[i].0, k)
    ensures Assign(d, k, v) == d + [(k, v)]
  {
    if d != [] {
      LessIrreflexive(k);
      LessAsymmetric(d[0].0, k);
      AssignAtEnd(d[1..], k, v);
      assert d + [(k, v)] == [d[0]] + (d[1..] + [(k, v)]);
    }
  }

  lemma LessAsymmetric(a: string, b: string)
    requires Less(a, b)
    ensures !Less(b, a) && a != b
  {
    LessIrreflexive(a);
    if Less(b, a) { LessTransitive(a, b, a); }
  }

  /** `map[k] = v` keeps the order, and brings in nothing but the new entry. */
  lemma {:induction false} AssignSorted(d: seq<Entry>, k: string, v: string)
    requires Sorted(d)
    ensures Sorted(Assign(d, k, v))
    ensures forall e :: e in Assign(d, k, v) ==> e in d || e == (k, v)
  {
    if d == [] {
    } else if k == d[0].0 {
      assert forall i :: 1 <= i < |d| ==> ([(k, v)] + d[1..])[i] == d[i];
    } else if Less(k, d[0].0) {
      BelowAll(d, k);
    } else {
      LessTotal(k, d[0].0);
      AssignSorted(d[1..], k, v);
      var r := Assign(d[1..], k, v);
      forall j | 0 <= j < |r|
        ensures Less(d[0].0, r[j].0)
      {
        assert r[j] in r;
      }
    }
  }
}
