/** Exactly one part callback decides how the upload ends, and it decides rightly. */
module MultipartSafety {
  import opened Options
  import opened Multipart

  lemma {:induction false} SubsetOfRange(a: set<nat>, n: nat)
    requires forall x :: x in a ==> x < n
    ensures |a| <= n
    ensures |a| == n ==> forall x: nat :: x < n ==> x in a
  {
    if n > 0 {
      var b := a - {n - 1};
      SubsetOfRange(b, n - 1);
      if n - 1 in a {
        assert a == b + {n - 1};
        assert |a| == |b| + 1;
      } else {
        assert a == b;
      }
    } else {
      assert a == {} by { if x :| x in a { assert false; } }
    }
  }

  /** While some part is not counted the countdown is above zero and nobody has decided. */
  lemma OpenWhileUncounted(s: State, res: seq<Outcome>, i: nat)
    requires Inv(s, res) && i < |res| && !Counted(s.pcs[i])
    ensures s.up.outstanding >= 1 && s.up.state != Validating && s.up.final.None?
    ensures forall j :: 0 <= j < |res| ==> !Last(s.pcs[j])
  {
    SubsetOfRange(CountedParts(s.pcs), |res|);
    assert i !in CountedParts(s.pcs);
    forall j | 0 <= j < |res|
      ensures !Last(s.pcs[j])
    {
      assert PartOk(s, res, j);
    }
  }

  lemma AllCounted(s: State, res: seq<Outcome>, i: nat)
    requires Inv(s, res) && s.up.outstanding == 0 && i < |res|
    ensures Counted(s.pcs[i]) && PartOk(s, res, i)
  {
    SubsetOfRange(CountedParts(s.pcs), |res|);
    assert i in CountedParts(s.pcs);
  }

  /** The countdown follows the set of counted parts. */
  lemma Recount(pcs: seq<Pc>, i: nat, pc: Pc)
    requires i < |pcs| && (Counted(pcs[i]) ==> Counted(pc))
    ensures |CountedParts(pcs[i := pc])| == |CountedParts(pcs)| + if Counted(pc) && !Counted(pcs[i]) then 1 else 0
  {
    var a, b := CountedParts(pcs), CountedParts(pcs[i := pc]);
    if Counted(pc) && !Counted(pcs[i]) {
      assert b == a + {i};
    } else {
      assert b == a;
    }
  }

  lemma WaitingKeeps(s: State, res: seq<Outcome>, i: nat)
    requires Inv(s, res) && i < |res| && s.pcs[i].Waiting?
    ensures Inv(Next(s, res, i), res)
  {
    var s' := Next(s, res, i);
    OpenWhileUncounted(s, res, i);
    Recount(s.pcs, i, s'.pcs[i]);
    forall j: nat | j < |res|
      ensures PartOk(s', res, j) && !Last(s'.pcs[j])
    {
      assert PartOk(s, res, j);
    }
  }

  lemma MarkKeeps(s: State, res: seq<Outcome>, i: nat)
    requires Inv(s, res) && i < |res| && s.pcs[i].MarkAborted?
    ensures Inv(Next(s, res, i), res)
  {
    var s' := Next(s, res, i);
    OpenWhileUncounted(s, res, i);
    Recount(s.pcs, i, s'.pcs[i]);
    assert PartOk(s, res, i);
    forall j: nat | j < |res|
      ensures PartOk(s', res, j) && !Last(s'.pcs[j])
    {
      assert PartOk(s, res, j);
    }
  }

  lemma CountKeeps(s: State, res: seq<Outcome>, i: nat)
    requires Inv(s, res) && i < |res| && s.pcs[i].Count?
    ensures Inv(Next(s, res, i), res)
  {
    var s' := Next(s, res, i);
    OpenWhileUncounted(s, res, i);
    Recount(s.pcs, i, s'.pcs[i]);
    forall j: nat | j < |res|
      ensures PartOk(s', res, j) && (j != i ==> !Last(s'.pcs[j]))
    {
      assert PartOk(s, res, j);
    }
    assert s'.up.outstanding == 0 ==> Last(s'.pcs[i]);
  }

  /** The last part finds the state Aborted exactly if a part failed. */
  lemma DecisionIsRight(s: State, res: seq<Outcome>, i: nat)
    requires Inv(s, res) && i < |res| && s.pcs[i].Decide?
    ensures s.up.state != Aborted <==> AllOk(res)
    ensures s.up.state != Validating
  {
    assert PartOk(s, res, i);
    if !AllOk(res) {
      var j :| 0 <= j < |res| && !res[j].Ok?;
      AllCounted(s, res, j);
    }
  }

  lemma DecideKeeps(s: State, res: seq<Outcome>, i: nat)
    requires Inv(s, res) && i < |res| && s.pcs[i].Decide?
    ensures Inv(Next(s, res, i), res)
  {
    var s' := Next(s, res, i);
    DecisionIsRight(s, res, i);
    Recount(s.pcs, i, s'.pcs[i]);
    assert PartOk(s, res, i) && Last(s'.pcs[i]);
    forall j: nat | j < |res|
      ensures PartOk(s', res, j) && (Last(s'.pcs[j]) ==> j == i)
    {
      assert PartOk(s, res, j);
    }
    assert s'.up == s.up;
    if s.up.final.Some? {
      var j :| 0 <= j < |res| && (s.pcs[j].Announce? || s.pcs[j] == Done(true));
      assert Last(s.pcs[j]);
      assert false;
    }
  }

  /** When every part is counted and none failed, every tag is in its place. */
  lemma TagsComplete(s: State, res: seq<Outcome>)
    requires Inv(s, res) && s.up.outstanding == 0 && AllOk(res)
    ensures s.up.eTags == Tags(res)
  {
    forall j | 0 <= j < |res|
      ensures s.up.eTags[j] == Tags(res)[j]
    {
      AllCounted(s, res, j);
    }
  }

  lemma PrepareKeeps(s: State, res: seq<Outcome>, i: nat)
    requires Inv(s, res) && i < |res| && s.pcs[i].Prepare?
    ensures Inv(Next(s, res, i), res)
  {
    var s' := Next(s, res, i);
    assert PartOk(s, res, i);
    if AllOk(res) { TagsComplete(s, res); }
    Recount(s.pcs, i, s'.pcs[i]);
    assert s'.pcs[i].Announce? && RightFinal(s'.up.final.value, res);
    forall j: nat | j < |res|
      ensures PartOk(s', res, j) && (Last(s'.pcs[j]) ==> j == i)
    {
      assert PartOk(s, res, j);
    }
  }

  lemma AnnounceKeeps(s: State, res: seq<Outcome>, i: nat)
    requires Inv(s, res) && i < |res| && s.pcs[i].Announce?
    ensures Inv(Next(s, res, i), res)
  {
    var s' := Next(s, res, i);
    assert PartOk(s, res, i);
    Recount(s.pcs, i, s'.pcs[i]);
    assert s'.pcs[i] == Done(true);
    forall j: nat | j < |res|
      ensures PartOk(s', res, j) && (Last(s'.pcs[j]) ==> j == i)
    {
      assert PartOk(s, res, j);
    }
  }

  lemma StepKeeps(s: State, res: seq<Outcome>, i: nat)
    requires Inv(s, res)
    ensures Inv(Next(s, res, i), res)
  {
    if i < |res| {
      match s.pcs[i]
      case Waiting => WaitingKeeps(s, res, i);
      case MarkAborted => MarkKeeps(s, res, i);
      case Count => CountKeeps(s, res, i);
      case Decide => DecideKeeps(s, res, i);
      case Prepare(_) => PrepareKeeps(s, res, i);
      case Announce => AnnounceKeeps(s, res, i);
      case Done(_) =>
    }
  }

  lemma {:induction false} RunKeeps(res: seq<Outcome>, steps: seq<nat>)
    ensures Inv(Run(Start(|res|), res, steps), res)
  {
    if steps == [] {
      assert CountedParts(Start(|res|).pcs) == {};
    } else {
      RunKeeps(res, steps[..|steps| - 1]);
      StepKeeps(Run(Start(|res|), res, steps[..|steps| - 1]), res, steps[|steps| - 1]);
    }
  }

  /** At most one callback has seen the countdown reach the last part; one has exactly when every part is counted. */
  ghost predicate OneDecides(s: State, n: nat)
    requires |s.pcs| == n
  {
    && (forall i, j :: 0 <= i < n && 0 <= j < n && Last(s.pcs[i]) && Last(s.pcs[j]) ==> i == j)
    && (n > 0 ==> ((exists i :: 0 <= i < n && Last(s.pcs[i])) <==> forall i :: 0 <= i < n ==> Counted(s.pcs[i])))
  }

  /** Whatever the interleaving, one callback decides how the upload ends. */
  lemma OneDecider(res: seq<Outcome>, steps: seq<nat>)
    ensures var s := Run(Start(|res|), res, steps);
            |s.pcs| == |res| && OneDecides(s, |res|)
  {
    RunKeeps(res, steps);
    DeciderIn(Run(Start(|res|), res, steps), res);
  }

  lemma DeciderIn(s: State, res: seq<Outcome>)
    requires Inv(s, res)
    ensures |s.pcs| == |res| && OneDecides(s, |res|)
  {
    if (forall i :: 0 <= i < |res| ==> Counted(s.pcs[i])) && |res| > 0 {
      var i := DeciderExists(s, res);
    }
    if i :| 0 <= i < |res| && Last(s.pcs[i]) {
      DeciderIsLast(s, res, i);
    }
  }

  lemma DeciderExists(s: State, res: seq<Outcome>) returns (i: nat)
    requires Inv(s, res) && |res| > 0 && forall i :: 0 <= i < |res| ==> Counted(s.pcs[i])
    ensures i < |res| && Last(s.pcs[i])
  {
    RangeSize(CountedParts(s.pcs), |res|);
    i :| i < |res| && Last(s.pcs[i]);
  }

  lemma DeciderIsLast(s: State, res: seq<Outcome>, i: nat)
    requires Inv(s, res) && i < |res| && Last(s.pcs[i])
    ensures forall j :: 0 <= j < |res| ==> Counted(s.pcs[j])
  {
    assert PartOk(s, res, i);
    forall j | 0 <= j < |res|
      ensures Counted(s.pcs[j])
    {
      AllCounted(s, res, j);
    }
  }

  lemma {:induction false} RangeSize(a: set<nat>, n: nat)
    requires forall x: nat :: x in a <==> x < n
    ensures |a| == n
  {
    if n > 0 {
      RangeSize(a - {n - 1}, n - 1);
    } else {
      assert a == {};
    }
  }

  /** The request prepared for the end of the upload: a complete request with the tag of every part
      in part order if no part failed, else an abort whose error message is a failed part. When all callbacks are done it is
      there, and the upload is ready to send it. */
  lemma RightEnd(res: seq<Outcome>, steps: seq<nat>)
    ensures var s := Run(Start(|res|), res, steps);
            && (s.up.final.Some? ==>
                  && RightFinal(s.up.final.value, res)
                  && (!AllOk(res) ==> s.up.errorMessageId < |res| && res[s.up.errorMessageId].Failed?))
            && (s.up.state == Validating ==> s.up.final.Some? && s.up.outstanding == 0)
            && (|res| > 0 && (forall i :: 0 <= i < |res| ==> s.pcs[i].Done?) ==> s.up.state == Validating)
  {
    RunKeeps(res, steps);
    var s := Run(Start(|res|), res, steps);
    if |res| > 0 && forall i :: 0 <= i < |res| ==> s.pcs[i].Done? {
      var i := DeciderExists(s, res);
      assert PartOk(s, res, i) && s.pcs[i] == Done(true);
    }
    if s.up.final.Some? {
      var i :| 0 <= i < |res| && (s.pcs[i].Announce? || s.pcs[i] == Done(true));
      assert PartOk(s, res, i);
      if !AllOk(res) {
        var j :| 0 <= j < |res| && !res[j].Ok?;
        AllCounted(s, res, j);
      }
    }
    if s.up.state == Validating {
      var i :| 0 <= i < |res| && s.pcs[i] == Done(true);
      assert PartOk(s, res, i);
    }
  }

  /** Every callback that keeps being scheduled ends: six operations at most. */
  function StepsLeft(pc: Pc): nat {
    match pc
    case Waiting => 6
    case MarkAborted => 5
    case Count => 4
    case Decide => 3
    case Prepare(_) => 2
    case Announce => 1
    case Done(_) => 0
  }

  lemma CallbackEnds(s: State, res: seq<Outcome>, i: nat)
    requires Shape(s, res) && i < |res| && !s.pcs[i].Done?
    ensures StepsLeft(Next(s, res, i).pcs[i]) < StepsLeft(s.pcs[i])
  {
  }

  /** A callback that runs without interference has the effect `PartDone`. */
  lemma UninterruptedIsPartDone(s: State, res: seq<Outcome>, i: nat) returns (steps: seq<nat>)
    requires Shape(s, res) && i < |res| && s.pcs[i].Waiting?
    ensures forall k :: 0 <= k < |steps| ==> steps[k] == i
    ensures var s' := Run(s, res, steps);
            s'.up == PartDone(s.up, i, res[i]) && s'.pcs[i].Done? && s'.pcs == s.pcs[i := s'.pcs[i]]
  {
    var s' := s;
    steps := [];
    while !s'.pcs[i].Done?
      invariant |s'.pcs| == |res| == |s'.up.eTags| && s' == Run(s, res, steps)
      invariant forall k :: 0 <= k < |steps| ==> steps[k] == i
      invariant s'.pcs == s.pcs[i := s'.pcs[i]]
      invariant Midway(s.up, i, res[i], s'.up, s'.pcs[i])
      decreases StepsLeft(s'.pcs[i])
    {
      assert (steps + [i])[..|steps + [i]| - 1] == steps;
      steps, s' := steps + [i], Next(s', res, i);
    }
  }

  /** How far an undisturbed callback has got. */
  ghost predicate Midway(up: Upload, i: nat, outcome: Outcome, now: Upload, pc: Pc)
    requires i < |up.eTags|
  {
    var stored := match outcome
      case Failed => up.(errorMessageId := i, state := Aborted)
      case Ok(tag) => up.(eTags := up.eTags[i := tag]);
    match pc
    case Waiting => now == up
    case MarkAborted => outcome.Failed? && now == up.(errorMessageId := i)
    case Count => now == stored
    case Decide => up.outstanding == 1 && now == stored.(outstanding := 0)
    case Prepare(complete) => up.outstanding == 1 && now == stored.(outstanding := 0) && complete == (stored.state != Aborted)
    case Announce => up.outstanding == 1 && now.(state := Validating) == PartDone(up, i, outcome)
    case Done(_) => now == PartDone(up, i, outcome)
  }

  /** An upload cut into zero parts (16-bit overflow of the part count) has no callback that could
      ever prepare its final request. */
  lemma {:induction false} ZeroPartsNeverEnd(steps: seq<nat>)
    ensures Run(Start(0), [], steps).up.final.None? && Run(Start(0), [], steps).up.state == Processing
  {
    if steps != [] {
      ZeroPartsNeverEnd(steps[..|steps| - 1]);
    }
  }
}
