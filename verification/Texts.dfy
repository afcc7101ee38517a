/** Text search as `std::string_view` does it; a byte is a `char`. */
module Texts {
  import opened Options

  /** The pattern `p` occurs in `s` at index `j`. */
  predicate OccursAt(s: string, p: string, j: nat) {
    j + |p| <= |s| && s[j..j + |p|] == p
  }

  /** `s.find(p, from)`: the first occurrence at or after `from`. */
  function FindFrom(s: string, p: string, from: nat): (r: Option<nat>)
    ensures r.Some? ==> from <= r.value && r.value + |p| <= |s|
    decreases |s| + 1 - from
  {
    if from + |p| > |s| then None
    else if s[from..from + |p|] == p then Some(from)
    else FindFrom(s, p, from + 1)
  }

  function Find(s: string, p: string): (r: Option<nat>)
    ensures r.Some? ==> r.value + |p| <= |s|
  {
    FindFrom(s, p, 0)
  }

  /** What is found is an occurrence, and there is none before it; nothing is found when there is none. */
  lemma {:induction false} FindFromSpec(s: string, p: string, from: nat)
    ensures var r := FindFrom(s, p, from);
            && (r.Some? ==> OccursAt(s, p, r.value) && forall j :: from <= j < r.value ==> !OccursAt(s, p, j))
            && (r.None? ==> forall j :: from <= j ==> !OccursAt(s, p, j))
    decreases |s| + 1 - from
  {
    if from + |p| <= |s| && s[from..from + |p|] != p {
      FindFromSpec(s, p, from + 1);
    }
  }

  lemma FindSpec(s: string, p: string)
    ensures var r := Find(s, p);
            && (r.Some? ==> OccursAt(s, p, r.value) && forall j: nat :: j < r.value ==> !OccursAt(s, p, j))
            && (r.None? ==> forall j: nat :: !OccursAt(s, p, j))
  {
    FindFromSpec(s, p, 0);
  }

  /** The first occurrence is the only index with its defining property. */
  lemma FindIs(s: string, p: string, i: nat)
    requires OccursAt(s, p, i) && forall j: nat :: j < i ==> !OccursAt(s, p, j)
    ensures Find(s, p) == Some(i)
  {
    FindSpec(s, p);
  }

  lemma OccursInLonger(s: string, x: string, p: string, j: nat)
    requires j + |p| <= |s|
    ensures OccursAt(s + x, p, j) <==> OccursAt(s, p, j)
  {
    assert (s + x)[j..j + |p|] == s[j..j + |p|];
  }

  lemma OccursInSuffix(x: string, s: string, p: string, j: nat)
    ensures OccursAt(x + s, p, |x| + j) <==> OccursAt(s, p, j)
  {
    if j + |p| <= |s| {
      assert (x + s)[|x| + j..|x| + j + |p|] == s[j..j + |p|];
    }
  }

  /** What was found stays the first occurrence when more text arrives. */
  lemma FindStable(s: string, x: string, p: string)
    requires Find(s, p).Some?
    ensures Find(s + x, p) == Find(s, p)
  {
    FindSpec(s, p);
    var i := Find(s, p).value;
    OccursInLonger(s, x, p, i);
    forall j: nat | j < i
      ensures !OccursAt(s + x, p, j)
    {
      OccursInLonger(s, x, p, j);
    }
    FindIs(s + x, p, i);
  }

  predicate StartsWith(s: string, p: string) {
    OccursAt(s, p, 0)
  }

  /** A prefix has the first occurrence exactly when it is long enough. */
  lemma FindInPrefix(s: string, p: string, n: nat)
    requires n <= |s| && Find(s, p).Some?
    ensures Find(s[..n], p) == if n >= Find(s, p).value + |p| then Find(s, p) else None
  {
    assert s == s[..n] + s[n..];
    if Find(s[..n], p).Some? {
      FindStable(s[..n], s[n..], p);
    } else if n >= Find(s, p).value + |p| {
      FindSpec(s, p);
      FindSpec(s[..n], p);
      OccursInLonger(s[..n], s[n..], p, Find(s, p).value);
    }
  }
}
