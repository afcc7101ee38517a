/** `Transaction::processSync`: the outer loop that sends initiate requests, parts and final
    requests, with the callbacks that advance every upload. */
module TransactionSync {
  import opened Options
  import opened Multipart
  import opened MultipartSafety
  import PartPlan
  import Words

  /** The messages of a transaction; `Plain` stands for one that belongs to no multipart upload. */
  datatype Message = Plain(k: nat) | Initiate(u: nat) | Part(u: nat, i: nat) | End(u: nat)

  /** How the environment answers every message. */
  type Answers = Message -> Outcome

  ghost function Results(o: Answers, u: nat, parts: nat): seq<Outcome> {
    seq(parts, i requires 0 <= i < parts => o(Part(u, i)))
  }

  /** What a user callback sees: `success()` of the initiate result, and the message its
      `setOriginError` names. */
  datatype Report = Report(success: bool, origin: Option<Message>)

  /** The final request is ready and right, and on an abort the error message is a failed part. */
  ghost predicate RightEnding(up: Upload, res: seq<Outcome>) {
    && up.final.Some? && RightFinal(up.final.value, res)
    && (!AllOk(res) ==> up.errorMessageId < |res| && res[up.errorMessageId].Failed?)
  }

  /** What the user callback has to be told: initiate, all parts and the final request succeeded. */
  ghost predicate Succeeds(o: Answers, u: nat, parts: nat) {
    o(Initiate(u)).Ok? && AllOk(Results(o, u, parts)) && o(End(u)).Ok?
  }

  /** The report of upload `u` tells success exactly if everything succeeded, and else blames a
      message that failed. */
  ghost predicate RightReport(o: Answers, u: nat, parts: nat, r: Report) {
    && (r.success <==> Succeeds(o, u, parts))
    && (r.origin.Some? <==> o(Initiate(u)).Ok? && !r.success)
    && (r.origin.Some? ==>
          && o(r.origin.value).Failed?
          && (r.origin.value == End(u) || exists i: nat :: i < parts && r.origin.value == Part(u, i)))
  }

  ghost function Pending(q: set<Message>, u: nat): set<nat> {
    set m | m in q && m.Part? && m.u == u :: m.i
  }

  /** Between callbacks: the parts in `pend` wait for their response, the others are done. */
  ghost predicate Quiet(up: Upload, res: seq<Outcome>, pend: set<nat>) {
    exists pcs :: QuietAt(State(up, pcs), res, pend)
  }

  ghost predicate QuietAt(s: State, res: seq<Outcome>, pend: set<nat>) {
    Inv(s, res) && forall i: nat :: i < |res| ==> if i in pend then s.pcs[i].Waiting? else s.pcs[i].Done?
  }

  lemma {:induction false} RunKeepsFrom(s: State, res: seq<Outcome>, steps: seq<nat>)
    requires Inv(s, res)
    ensures Inv(Run(s, res, steps), res)
    decreases |steps|
  {
    if steps != [] {
      RunKeepsFrom(s, res, steps[..|steps| - 1]);
      StepKeeps(Run(s, res, steps[..|steps| - 1]), res, steps[|steps| - 1]);
    }
  }

  lemma QuietStart(parts: nat, pend: set<nat>)
    requires forall i: nat :: i in pend <==> i < parts
    ensures forall res: seq<Outcome> :: |res| == parts ==> Quiet(NewUpload(parts).(state := Processing), res, pend)
  {
    forall res: seq<Outcome> | |res| == parts
      ensures Quiet(NewUpload(parts).(state := Processing), res, pend)
    {
      RunKeeps(res, []);
      assert QuietAt(Start(parts), res, pend);
    }
  }

  lemma QuietPart(up: Upload, res: seq<Outcome>, pend: set<nat>, i: nat)
    requires Quiet(up, res, pend) && i in pend && i < |res|
    ensures i < |up.eTags| && Quiet(PartDone(up, i, res[i]), res, pend - {i})
    ensures PartDone(up, i, res[i]).parts == up.parts
  {
    var pcs :| QuietAt(State(up, pcs), res, pend);
    var s := State(up, pcs);
    var steps := UninterruptedIsPartDone(s, res, i);
    RunKeepsFrom(s, res, steps);
    assert QuietAt(Run(s, res, steps), res, pend - {i});
  }

  lemma AllDone(s: State, res: seq<Outcome>)
    requires Inv(s, res) && |res| > 0 && forall i :: 0 <= i < |res| ==> s.pcs[i].Done?
    ensures s.up.state == Validating && RightEnding(s.up, res)
  {
    var j := DeciderExists(s, res);
    assert PartOk(s, res, j) && s.pcs[j] == Done(true);
    if !AllOk(res) {
      var k :| 0 <= k < |res| && !res[k].Ok?;
      AllCounted(s, res, k);
    }
  }

  lemma ValidatingIsDone(s: State, res: seq<Outcome>, i: nat)
    requires Inv(s, res) && s.up.state == Validating && i < |res|
    ensures Counted(s.pcs[i])
  {
    var j :| 0 <= j < |res| && s.pcs[j] == Done(true);
    assert PartOk(s, res, j);
    AllCounted(s, res, i);
  }

  /** When all responses have arrived the final request is ready, and it is the right one. */
  lemma QuietEnd(up: Upload, res: seq<Outcome>, pend: set<nat>)
    requires Quiet(up, res, pend) && |res| > 0
    ensures (forall i :: 0 <= i < |res| ==> i !in pend) ==>
              up.state == Validating && RightEnding(up, res)
    ensures up.state == Validating ==> forall i :: 0 <= i < |res| ==> i !in pend
    ensures up.state != Default && up.state != Sending && up.parts == |res|
  {
    var pcs :| QuietAt(State(up, pcs), res, pend);
    var s := State(up, pcs);
    if forall i :: 0 <= i < |res| ==> i !in pend {
      AllDone(s, res);
    }
    if up.state == Validating {
      forall i | 0 <= i < |res|
        ensures i !in pend
      {
        ValidatingIsDone(s, res, i);
      }
    }
  }

  /** Without parts there is no callback, so nothing moves. */
  lemma QuietZero(up: Upload, res: seq<Outcome>, pend: set<nat>)
    requires Quiet(up, res, pend) && |res| == 0
    ensures up.state == Processing && up.parts == 0
  {
    var pcs :| QuietAt(State(up, pcs), res, pend);
    assert AllOk(res);
  }

  // ---------------------------------------------------------------------------------------------
  // The stage of one upload
  // ---------------------------------------------------------------------------------------------

  ghost predicate NoneQueued(q: set<Message>, u: nat) {
    Initiate(u) !in q && End(u) !in q && Pending(q, u) == {}
  }

  /** Where upload `u` stands, given the messages in the queue `q` and the user callbacks made. */
  ghost predicate Stage(o: Answers, u: nat, up: Upload, sent: bool, q: set<Message>, calls: map<nat, Report>) {
    var res := Results(o, u, up.parts);
    if !sent then up == NewUpload(up.parts) && u !in calls && NoneQueued(q, u)
    else if Initiate(u) in q then
      up == NewUpload(up.parts) && u !in calls && End(u) !in q && Pending(q, u) == {}
    else if o(Initiate(u)).Failed? then
      up == NewUpload(up.parts) && u in calls && calls[u] == Report(false, None) && NoneQueued(q, u)
    else if up.state == Sending then
      up == NewUpload(up.parts).(state := Sending) && u !in calls && NoneQueued(q, u)
    else if up.state == Default then
      && up.parts > 0 && Pending(q, u) == {} && RightEnding(up, res)
      && (End(u) in q <==> u !in calls)
      && (u in calls ==> RightReport(o, u, up.parts, calls[u]))
    else u !in calls && End(u) !in q && Quiet(up, res, Pending(q, u))
  }

  /** An upload that was cut into zero parts and is initiated: no response will ever end it. */
  predicate Stuck(o: Answers, u: nat, parts: nat) {
    parts == 0 && o(Initiate(u)).Ok?
  }

  /** Rounds of the loop until upload `u` is at rest, counted from when the messages in the queue are answered. */
  function Rank(u: nat, up: Upload, sent: bool, q: set<Message>, called: bool): nat {
    if called then 0
    else if !sent then 3
    else if Initiate(u) in q || up.state == Sending then 2
    else if up.state == Default || up.parts == 0 then 0
    else 1
  }

  predicate Concerns(m: Message, u: nat) {
    !m.Plain? && m.u == u
  }

  lemma PendingMinus(q: set<Message>, m: Message, u: nat)
    ensures Pending(q - {m}, u) == if m.Part? && m.u == u then Pending(q, u) - {m.i} else Pending(q, u)
  {
    var a, b := Pending(q - {m}, u), Pending(q, u);
    forall i | i in b
      ensures i in a <==> m != Part(u, i)
    {
      assert Part(u, i) in q;
      if m != Part(u, i) { assert Part(u, i) in q - {m}; }
    }
  }

  lemma PendingPlus(q: set<Message>, m: Message, u: nat)
    ensures Pending(q + {m}, u) == if m.Part? && m.u == u then Pending(q, u) + {m.i} else Pending(q, u)
  {
    var a, b := Pending(q + {m}, u), Pending(q, u);
    forall i | i in a
      ensures i in b || m == Part(u, i)
    {
      assert Part(u, i) in q + {m};
    }
    forall i | i in b
      ensures i in a
    {
      assert Part(u, i) in q + {m};
    }
    if m.Part? && m.u == u { assert Part(u, m.i) in q + {m}; }
  }

  /** Messages and callbacks of other uploads do not concern an upload. */
  lemma StageFrame(o: Answers, u: nat, up: Upload, sent: bool, q: set<Message>, calls: map<nat, Report>,
                   q': set<Message>, calls': map<nat, Report>, m: Message)
    requires Stage(o, u, up, sent, q, calls) && !Concerns(m, u)
    requires q' == q - {m} || q' == q + {m}
    requires (u in calls <==> u in calls') && (u in calls ==> calls'[u] == calls[u])
    ensures Stage(o, u, up, sent, q', calls')
  {
    PendingMinus(q, m, u);
    PendingPlus(q, m, u);
  }

  /** The callback of a part request advances its upload by `PartDone`. */
  lemma StagePart(o: Answers, u: nat, up: Upload, q: set<Message>, calls: map<nat, Report>, i: nat)
    requires Stage(o, u, up, true, q, calls) && Part(u, i) in q && i < up.parts
    ensures i < |up.eTags| && Stage(o, u, PartDone(up, i, o(Part(u, i))), true, q - {Part(u, i)}, calls)
  {
    var res := Results(o, u, up.parts);
    assert i in Pending(q, u);
    QuietPart(up, res, Pending(q, u), i);
    PendingMinus(q, Part(u, i), u);
    QuietEnd(PartDone(up, i, res[i]), res, Pending(q, u) - {i});
  }

  /** A part with an outstanding response: its upload is being sent, and stays so. */
  lemma PartIsQuiet(o: Answers, u: nat, up: Upload, sent: bool, q: set<Message>, calls: map<nat, Report>, i: nat)
    requires Stage(o, u, up, sent, q, calls) && Part(u, i) in q && i < up.parts
    ensures Rank(u, up, sent, q, u in calls) == 1 && sent && i < |up.eTags|
    ensures Rank(u, PartDone(up, i, o(Part(u, i))), sent, q - {Part(u, i)}, u in calls) == 1
  {
    var res := Results(o, u, up.parts);
    assert i in Pending(q, u);
    QuietPart(up, res, Pending(q, u), i);
    QuietEnd(PartDone(up, i, res[i]), res, Pending(q, u) - {i});
  }

  /** An upload that has its initiate request queued is still in state Default. */
  lemma SendingIsQuiet(o: Answers, u: nat, up: Upload, sent: bool, q: set<Message>, calls: map<nat, Report>)
    requires Stage(o, u, up, sent, q, calls) && (up.state == Sending || up.state == Validating)
    ensures Initiate(u) !in q
  {
  }

  /** With nothing but an initiate request queued, an upload in another state needs no round more
      than its rank. */
  lemma RankAtRest(o: Answers, u: nat, up: Upload, sent: bool, q: set<Message>, calls: map<nat, Report>)
    requires Stage(o, u, up, sent, q, calls) && up.state != Sending && up.state != Validating
    requires Initiate(u) in q || NoneQueued(q, u)
    ensures Initiate(u) in q || !sent || Rank(u, up, sent, q, u in calls) == 0
  {
    if sent && Initiate(u) !in q && up.parts > 0 && Quiet(up, Results(o, u, up.parts), Pending(q, u)) {
      QuietEnd(up, Results(o, u, up.parts), Pending(q, u));
    }
  }

  /** The same uploads, cut into the same parts. */
  ghost predicate SameParts(a: seq<Upload>, b: seq<Upload>) {
    |a| == |b| && forall u: nat :: u < |a| ==> a[u].parts == b[u].parts
  }

  ghost predicate StageAt(o: Answers, ups: seq<Upload>, sent: seq<Message>, q: set<Message>, calls: map<nat, Report>, u: nat) {
    u < |ups| ==> Stage(o, u, ups[u], Initiate(u) in sent, q, calls)
  }

  ghost predicate Stages(o: Answers, ups: seq<Upload>, sent: seq<Message>, q: set<Message>, calls: map<nat, Report>) {
    forall u: nat {:trigger StageAt(o, ups, sent, q, calls, u)} :: StageAt(o, ups, sent, q, calls, u)
  }

  /** A message sent or answered moves only the upload it belongs to. */
  lemma OneMoves(o: Answers, ups: seq<Upload>, sent: seq<Message>, q: set<Message>, calls: map<nat, Report>,
                 u: nat, m: Message, ups': seq<Upload>, q': set<Message>, calls': map<nat, Report>)
    requires Stages(o, ups, sent, q, calls) && u < |ups| == |ups'| && ups' == ups[u := ups'[u]]
    requires Concerns(m, u) && (q' == q - {m} || q' == q + {m})
    requires calls' == calls || (u in calls' && calls' == calls[u := calls'[u]])
    requires Stage(o, u, ups'[u], Initiate(u) in sent, q', calls')
    ensures Stages(o, ups', sent, q', calls')
  {
    forall v: nat | v < |ups'|
      ensures Stage(o, v, ups'[v], Initiate(v) in sent, q', calls')
    {
      assert StageAt(o, ups, sent, q, calls, v);
      if v != u {
        StageFrame(o, v, ups[v], Initiate(v) in sent, q, calls, q', calls', m);
      }
    }
  }

  /** For upload `v` nothing has changed that matters while queue `q0` became `q`. */
  ghost predicate Same(o: Answers, v: nat, up: Upload, sent: bool, q0: set<Message>, q: set<Message>, calls: map<nat, Report>) {
    && Stage(o, v, up, sent, q, calls)
    && Rank(v, up, sent, q, v in calls) == Rank(v, up, sent, q0, v in calls)
    && (NoneQueued(q0, v) ==> NoneQueued(q, v)) && (Initiate(v) in q <==> Initiate(v) in q0)
  }

  ghost predicate SameAt(o: Answers, ups: seq<Upload>, sent: seq<Message>, q0: set<Message>, q: set<Message>,
                         calls: map<nat, Report>, v: nat) {
    v < |ups| ==> Same(o, v, ups[v], Initiate(v) in sent, q0, q, calls)
  }

  /** Sending the messages of upload `u` (queue `q0` became `q`) left every other upload alone. */
  ghost predicate Untouched(o: Answers, ups: seq<Upload>, sent: seq<Message>, q0: set<Message>, q: set<Message>,
                            calls: map<nat, Report>, u: nat) {
    forall v: nat {:trigger SameAt(o, ups, sent, q0, q, calls, v)} :: v != u ==> SameAt(o, ups, sent, q0, q, calls, v)
  }

  lemma SamePending(q0: set<Message>, q: set<Message>, v: nat)
    requires forall m :: m in q && Concerns(m, v) ==> m in q0
    requires q0 <= q
    ensures Pending(q, v) == Pending(q0, v)
  {
    forall i | i in Pending(q, v)
      ensures i in Pending(q0, v)
    {
      assert Part(v, i) in q && Concerns(Part(v, i), v);
    }
    forall i | i in Pending(q0, v)
      ensures i in Pending(q, v)
    {
      assert Part(v, i) in q;
    }
  }

  lemma SameStage(o: Answers, v: nat, up: Upload, sent: bool, q0: set<Message>, q: set<Message>, calls: map<nat, Report>)
    requires Stage(o, v, up, sent, q0, calls) && q0 <= q
    requires forall m :: m in q && Concerns(m, v) ==> m in q0
    ensures Same(o, v, up, sent, q0, q, calls)
  {
    SamePending(q0, q, v);
  }

  lemma OthersUntouched(o: Answers, ups: seq<Upload>, sent: seq<Message>, q0: set<Message>, q: set<Message>,
                        calls: map<nat, Report>, u: nat)
    requires Stages(o, ups, sent, q0, calls) && q0 <= q
    requires forall m :: m in q && m !in q0 ==> Concerns(m, u)
    ensures Untouched(o, ups, sent, q0, q, calls, u)
  {
    forall v: nat | v != u
      ensures SameAt(o, ups, sent, q0, q, calls, v)
    {
      if v < |ups| {
        assert StageAt(o, ups, sent, q0, calls, v);
        SameStage(o, v, ups[v], Initiate(v) in sent, q0, q, calls);
      }
    }
  }

  lemma QuietIsNotDefault(o: Answers, u: nat, up: Upload, q: set<Message>)
    ensures Quiet(up, Results(o, u, up.parts), Pending(q, u)) ==> up.state != Default && up.state != Sending
    ensures Quiet(up, Results(o, u, up.parts), Pending(q, u)) && up.parts == 0 ==> up.state == Processing
  {
    var res := Results(o, u, up.parts);
    if Quiet(up, res, Pending(q, u)) {
      if up.parts > 0 {
        QuietEnd(up, res, Pending(q, u));
      } else {
        QuietZero(up, res, Pending(q, u));
      }
    }
  }

  lemma Rejoin(o: Answers, ups: seq<Upload>, sent: seq<Message>, q0: set<Message>, q: set<Message>,
               calls: map<nat, Report>, u: nat, up: Upload)
    requires Untouched(o, ups, sent, q0, q, calls, u) && u < |ups| && Stage(o, u, up, Initiate(u) in sent, q, calls)
    ensures Stages(o, ups[u := up], sent, q, calls)
  {
    var ups' := ups[u := up];
    forall v: nat
      ensures StageAt(o, ups', sent, q, calls, v)
    {
      if v != u { assert SameAt(o, ups, sent, q0, q, calls, v); }
    }
  }

  lemma EndIsQuiet(o: Answers, u: nat, up: Upload, sent: bool, q: set<Message>, calls: map<nat, Report>)
    requires Stage(o, u, up, sent, q, calls) && up.state == Validating && NoneQueued(q, u)
    ensures sent && u !in calls && Stage(o, u, up.(state := Default), sent, q + {End(u)}, calls) && up.final.Some?
    ensures Rank(u, up, sent, q, u in calls) == 1
  {
    QuietIsNotDefault(o, u, up, q);
    QuietEnd(up, Results(o, u, up.parts), Pending(q, u));
    PendingPlus(q, End(u), u);
  }

  lemma SendingShape(o: Answers, u: nat, up: Upload, sent: bool, q: set<Message>, calls: map<nat, Report>)
    requires Stage(o, u, up, sent, q, calls) && up.state == Sending
    ensures sent && up == NewUpload(up.parts).(state := Sending) && u !in calls && o(Initiate(u)).Ok? && Initiate(u) !in q
    ensures Rank(u, up, sent, q, u in calls) == 2
  {
    QuietIsNotDefault(o, u, up, q);
  }

  lemma PartsAreQuiet(o: Answers, u: nat, up: Upload, q0: set<Message>, q: set<Message>, calls: map<nat, Report>)
    requires up == NewUpload(up.parts).(state := Sending) && NoneQueued(q0, u) && u !in calls
    requires o(Initiate(u)).Ok?
    requires q0 <= q && (forall i: nat :: i < up.parts ==> Part(u, i) in q)
    requires forall m :: m in q && m !in q0 ==> m.Part? && m.u == u && m.i < up.parts
    ensures Stage(o, u, up.(state := Processing), true, q, calls)
  {
    forall i: nat
      ensures i in Pending(q, u) <==> i < up.parts
    {
      assert Part(u, i) in q0 ==> i in Pending(q0, u);
      assert i in Pending(q, u) <==> Part(u, i) in q;
    }
    QuietStart(up.parts, Pending(q, u));
    assert |Results(o, u, up.parts)| == up.parts;
  }

  /** An upload that has just been added. */
  lemma MoreStages(o: Answers, ups: seq<Upload>, parts: nat, sent: seq<Message>, q: set<Message>, calls: map<nat, Report>)
    requires Stages(o, ups, sent, q, calls) && NoneQueued(q, |ups|) && |ups| !in calls && Initiate(|ups|) !in sent
    ensures Stages(o, ups + [NewUpload(parts)], sent, q, calls)
  {
    var more := ups + [NewUpload(parts)];
    forall v: nat
      ensures StageAt(o, more, sent, q, calls, v)
    {
      assert StageAt(o, ups, sent, q, calls, v);
    }
  }

  /** What sending message `m` does to upload `u`. */
  lemma SendOne(o: Answers, u: nat, up: Upload, sent: seq<Message>, q: set<Message>, calls: map<nat, Report>, m: Message)
    requires Stage(o, u, up, Initiate(u) in sent, q, calls) && m !in sent && (m.Plain? || m.Initiate?)
    ensures var sent', q' := sent + [m], q + {m};
            && Stage(o, u, up, Initiate(u) in sent', q', calls)
            && (m == Initiate(u) ==> Rank(u, up, Initiate(u) in sent, q, u in calls) == 3
                                     && Rank(u, up, Initiate(u) in sent', q', u in calls) == 2)
            && (m != Initiate(u) ==>
                  && Rank(u, up, Initiate(u) in sent', q', u in calls) == Rank(u, up, Initiate(u) in sent, q, u in calls)
                  && (NoneQueued(q, u) ==> NoneQueued(q', u)))
  {
    PendingPlus(q, m, u);
    if m != Initiate(u) {
      StageFrame(o, u, up, Initiate(u) in sent, q, calls, q + {m}, calls, m);
    }
  }

  /** What the response to the initiate request does. */
  lemma StageInitiated(o: Answers, u: nat, up: Upload, sent: bool, q: set<Message>, calls: map<nat, Report>)
    requires Stage(o, u, up, sent, q, calls) && Initiate(u) in q
    ensures sent && u !in calls
    ensures o(Initiate(u)).Ok? ==> Stage(o, u, up.(state := Sending), sent, q - {Initiate(u)}, calls)
    ensures SameOut(up, up.(state := Sending))
    ensures o(Initiate(u)).Failed? ==> Stage(o, u, up, sent, q - {Initiate(u)}, calls[u := Report(false, None)])
  {
    PendingMinus(q, Initiate(u), u);
  }

  /** What the user callback is told when the final request has ended. */
  function EndReport(o: Answers, u: nat, up: Upload): Report
    requires up.final.Some?
  {
    match up.final.value
    case CompleteRequest(_) => if o(End(u)).Ok? then Report(true, None) else Report(false, Some(End(u)))
    case AbortRequest => Report(false, Some(Part(u, up.errorMessageId)))
  }

  lemma StageEnded(o: Answers, u: nat, up: Upload, sent: bool, q: set<Message>, calls: map<nat, Report>)
    requires Stage(o, u, up, sent, q, calls) && End(u) in q
    ensures sent && u !in calls && up.final.Some?
    ensures Stage(o, u, up, sent, q - {End(u)}, calls[u := EndReport(o, u, up)])
  {
    QuietIsNotDefault(o, u, up, q);
    PendingMinus(q, End(u), u);
  }

  // ---------------------------------------------------------------------------------------------
  // Every message is sent and answered once
  // ---------------------------------------------------------------------------------------------

  /** The last request of the upload has been sent. */
  predicate EndOut(up: Upload) {
    up.state == Default && up.final.Some?
  }

  /** The parts of the upload have been sent. */
  predicate PartsOut(up: Upload) {
    up.state == Processing || up.state == Aborted || up.state == Validating || EndOut(up)
  }

  /** How often a message has been sent, by the messages before the counter and the states of the uploads. */
  function Expected(sent: seq<Message>, ups: seq<Upload>, m: Message): nat {
    match m
    case Plain(_) => if m in sent then 1 else 0
    case Initiate(_) => if m in sent then 1 else 0
    case Part(u, i) => if u < |ups| && PartsOut(ups[u]) && i < ups[u].parts then 1 else 0
    case End(u) => if u < |ups| && EndOut(ups[u]) then 1 else 0
  }

  /** What was sent is answered, or it waits in the queue. */
  ghost predicate Booked(sent: seq<Message>, ups: seq<Upload>, q: set<Message>, ans: multiset<Message>) {
    forall m: Message {:trigger ans[m]} :: ans[m] + (if m in q then 1 else 0) == Expected(sent, ups, m)
  }

  ghost predicate Unanswered(ms: seq<Message>, ans: multiset<Message>) {
    forall m :: m in ms ==> ans[m] == 0
  }

  /** As far as sending goes the upload stays where it is. */
  predicate SameOut(a: Upload, b: Upload) {
    PartsOut(a) == PartsOut(b) && EndOut(a) == EndOut(b) && (PartsOut(a) ==> a.parts == b.parts)
  }

  lemma BookAnswer(sent: seq<Message>, ups: seq<Upload>, ups': seq<Upload>, q: set<Message>, ans: multiset<Message>, m: Message)
    requires Booked(sent, ups, q, ans) && m in q && |ups'| == |ups|
    requires forall u: nat :: u < |ups| ==> SameOut(ups[u], ups'[u])
    ensures Booked(sent, ups', q - {m}, ans + multiset{m})
  {
    var after := ans + multiset{m};
    forall x: Message
      ensures after[x] + (if x in q - {m} then 1 else 0) == Expected(sent, ups', x)
    {
      assert ans[x] + (if x in q then 1 else 0) == Expected(sent, ups, x);
    }
  }

  lemma BookMoved(sent: seq<Message>, ups: seq<Upload>, u: nat, ups': seq<Upload>, q: set<Message>, ans: multiset<Message>, m: Message)
    requires Booked(sent, ups, q, ans) && m in q && u < |ups| == |ups'| && ups' == ups[u := ups'[u]] && SameOut(ups[u], ups'[u])
    ensures Booked(sent, ups', q - {m}, ans + multiset{m})
  {
    BookAnswer(sent, ups, ups', q, ans, m);
  }

  lemma BookSend(sent: seq<Message>, ups: seq<Upload>, q: set<Message>, ans: multiset<Message>, m: Message)
    requires Booked(sent, ups, q, ans) && m !in sent && (m.Plain? || m.Initiate?)
    ensures Booked(sent + [m], ups, q + {m}, ans)
  {
    forall x: Message
      ensures ans[x] + (if x in q + {m} then 1 else 0) == Expected(sent + [m], ups, x)
    {
      assert ans[x] + (if x in q then 1 else 0) == Expected(sent, ups, x);
    }
  }

  lemma BookParts(sent: seq<Message>, ups: seq<Upload>, u: nat, q: set<Message>, q': set<Message>, ans: multiset<Message>)
    requires Booked(sent, ups, q, ans) && u < |ups| && ups[u].state == Sending && q <= q'
    requires forall i: nat :: i < ups[u].parts ==> Part(u, i) in q'
    requires forall m :: m in q' && m !in q ==> m.Part? && m.u == u && m.i < ups[u].parts
    ensures Booked(sent, ups[u := ups[u].(state := Processing)], q', ans)
  {
    var ups' := ups[u := ups[u].(state := Processing)];
    forall x: Message
      ensures ans[x] + (if x in q' then 1 else 0) == Expected(sent, ups', x)
    {
      assert ans[x] + (if x in q then 1 else 0) == Expected(sent, ups, x);
    }
  }

  lemma BookEnd(sent: seq<Message>, ups: seq<Upload>, u: nat, q: set<Message>, ans: multiset<Message>)
    requires Booked(sent, ups, q, ans) && u < |ups| && ups[u].state == Validating && ups[u].final.Some?
    ensures Booked(sent, ups[u := ups[u].(state := Default)], q + {End(u)}, ans)
  {
    var ups' := ups[u := ups[u].(state := Default)];
    forall x: Message
      ensures ans[x] + (if x in q + {End(u)} then 1 else 0) == Expected(sent, ups', x)
    {
      assert ans[x] + (if x in q then 1 else 0) == Expected(sent, ups, x);
    }
  }

  lemma BookUpload(sent: seq<Message>, ups: seq<Upload>, parts: nat, q: set<Message>, ans: multiset<Message>)
    requires Booked(sent, ups, q, ans)
    ensures Booked(sent, ups + [NewUpload(parts)], q, ans)
  {
    var more := ups + [NewUpload(parts)];
    forall x: Message
      ensures ans[x] + (if x in q then 1 else 0) == Expected(sent, more, x)
    {
      assert ans[x] + (if x in q then 1 else 0) == Expected(sent, ups, x);
    }
  }

  /** The callback of a part leaves its upload between the parts and the last request. */
  lemma PartStaysOut(o: Answers, u: nat, up: Upload, sent: bool, q: set<Message>, calls: map<nat, Report>, i: nat)
    requires Stage(o, u, up, sent, q, calls) && Part(u, i) in q && i < up.parts
    ensures i < |up.eTags| && SameOut(up, PartDone(up, i, o(Part(u, i))))
  {
    var res := Results(o, u, up.parts);
    assert i in Pending(q, u);
    QuietPart(up, res, Pending(q, u), i);
    QuietEnd(up, res, Pending(q, u));
    QuietEnd(PartDone(up, i, res[i]), res, Pending(q, u) - {i});
  }

  class Transaction {
    const answers: Answers
    var messages: seq<Message>
    var messageCounter: nat
    var uploads: seq<Upload>
    var completedMultiparts: nat
    var calls: map<nat, Report>          // the user callbacks made so far, with the success() they saw
    var queue: set<Message>            // the local submission queue of the handle
    ghost var answered: multiset<Message>      // the messages answered so far

    /** The messages sent so far. */
    ghost function Sent(): seq<Message>
      reads this`messages, this`messageCounter
    {
      if messageCounter <= |messages| then messages[..messageCounter] else messages
    }

    ghost predicate Sane()
      reads this
    {
      && messageCounter <= |messages|
      && (forall i, j :: 0 <= i < j < |messages| ==> messages[i] != messages[j])
      && (forall m :: m in messages ==> m.Plain? || (m.Initiate? && m.u < |uploads|))
      && (forall u :: 0 <= u < |uploads| ==> Initiate(u) in messages)
      && completedMultiparts == |calls| && (forall u :: u in calls ==> u < |uploads|)
      && (forall m :: m in queue ==> m.Plain? || (m.u < |uploads| && (m.Part? ==> m.i < uploads[m.u].parts)))
      && (forall m :: m in queue && (m.Plain? || m.Initiate?) ==> m in messages[..messageCounter])
    }

    ghost predicate Valid()
      reads this
    {
      Sane() && Stages(answers, uploads, Sent(), queue, calls) && Booked(Sent(), uploads, queue, answered)
    }

    lemma StageOf(u: nat)
      requires Valid() && u < |uploads|
      ensures Stage(answers, u, uploads[u], Initiate(u) in Sent(), queue, calls)
    {
      assert StageAt(answers, uploads, Sent(), queue, calls, u);
    }

    ghost function RankOf(u: nat): nat
      reads this
      requires u < |uploads|
    {
      Rank(u, uploads[u], Initiate(u) in Sent(), queue, u in calls)
    }

    ghost predicate RanksAtMost(n: nat)
      reads this
    {
      forall v: nat :: v < |uploads| ==> RankOf(v) <= n
    }

    /** Only this part of the object changes while messages are answered. */
    ghost predicate Extends(before: map<nat, Report>)
      reads this
    {
      forall u :: u in before ==> u in calls && calls[u] == before[u]
    }

    constructor (answers: Answers)
      ensures Valid() && queue == {} && uploads == [] && messages == [] && answered == multiset{} && this.answers == answers
    {
      this.answers := answers;
      messages, messageCounter, uploads, completedMultiparts, calls, queue := [], 0, [], 0, map[], {};
      answered := multiset{};
    }

    /** `putObjectRequestMultiPart`: one more upload, and its initiate request as a message. */
    method PutMultiPart(parts: nat)
      requires Valid()
      modifies this`uploads, this`messages
      ensures Valid() && uploads == old(uploads) + [NewUpload(parts)]
      ensures messages == old(messages) + [Initiate(|old(uploads)|)]
    {
      ghost var sent := Sent();
      assert Pending(queue, |uploads|) == {};
      uploads := uploads + [NewUpload(parts)];
      messages := messages + [Initiate(|uploads| - 1)];
      assert Sent() == sent;
      MoreStages(answers, old(uploads), parts, sent, queue, calls);
      BookUpload(sent, old(uploads), parts, queue, answered);
    }

    /** A request that belongs to no multipart upload. */
    method PutPlain(k: nat)
      requires Valid() && Plain(k) !in messages
      modifies this`messages
      ensures Valid() && messages == old(messages) + [Plain(k)]
    {
      ghost var sent := Sent();
      messages := messages + [Plain(k)];
      assert Sent() == sent;
    }

    // -- callbacks ------------------------------------------------------------------------------

    /** `uploadMessages`: the initiate request ended. */
    method InitiateDone(u: nat)
      requires Valid() && u < |uploads| && Initiate(u) in queue
      modifies this`queue, this`answered, this`uploads, this`calls, this`completedMultiparts
      ensures Valid() && queue == old(queue) - {Initiate(u)}
      ensures answers(Initiate(u)).Ok? ==>
                uploads == old(uploads)[u := old(uploads[u]).(state := Sending)] && calls == old(calls)
      ensures answers(Initiate(u)).Failed? ==> uploads == old(uploads) && calls == old(calls)[u := Report(false, None)]
    {
      StageOf(u);
      StageInitiated(answers, u, uploads[u], Initiate(u) in Sent(), queue, calls);
      queue := queue - {Initiate(u)};
      answered := answered + multiset{Initiate(u)};
      if answers(Initiate(u)).Failed? {
        completedMultiparts := completedMultiparts + 1;
        calls := calls[u := Report(false, None)];
      } else {
        uploads := uploads[u := uploads[u].(state := Sending)];
      }
      assert Sane();
      OneMoves(answers, old(uploads), Sent(), old(queue), old(calls), u, Initiate(u), uploads, queue, calls);
      BookMoved(Sent(), old(uploads), u, uploads, old(queue), old(answered), Initiate(u));
    }

    /** The statements of `finishMultipart`. */
    method FinishMultipart(u: nat, i: nat)
      requires u < |uploads| && i < |uploads[u].eTags|
      modifies this`uploads
      ensures uploads == old(uploads)[u := PartDone(old(uploads[u]), i, answers(Part(u, i)))]
    {
      var up := uploads[u];
      match answers(Part(u, i)) {
        case Failed =>
          up := up.(errorMessageId := i);
          up := up.(state := Aborted);
        case Ok(tag) =>
          up := up.(eTags := up.eTags[i := tag]);
      }
      var before := up.outstanding;
      up := up.(outstanding := before - 1);
      if before == 1 {
        if up.state != Aborted {
          up := up.(final := Some(CompleteRequest(up.eTags)));
        } else {
          up := up.(final := Some(AbortRequest));
        }
        up := up.(state := Validating);
      }
      uploads := uploads[u := up];
    }

    /** The request of part i + 1 ended. */
    method PartFinished(u: nat, i: nat)
      requires Valid() && u < |uploads| && Part(u, i) in queue
      modifies this`queue, this`answered, this`uploads
      ensures Valid() && queue == old(queue) - {Part(u, i)}
      ensures i < |old(uploads[u]).eTags|
      ensures uploads == old(uploads)[u := PartDone(old(uploads[u]), i, answers(Part(u, i)))]
    {
      StageOf(u);
      assert i in Pending(queue, u);
      StagePart(answers, u, uploads[u], queue, calls, i);
      PartStaysOut(answers, u, uploads[u], Initiate(u) in Sent(), queue, calls, i);
      queue := queue - {Part(u, i)};
      answered := answered + multiset{Part(u, i)};
      FinishMultipart(u, i);
      assert Sane();
      OneMoves(answers, old(uploads), Sent(), old(queue), calls, u, Part(u, i), uploads, queue, calls);
      BookMoved(Sent(), old(uploads), u, uploads, old(queue), old(answered), Part(u, i));
    }

    /** The complete or abort request ended: the user callback runs. */
    method EndDone(u: nat)
      requires Valid() && u < |uploads| && End(u) in queue
      modifies this`queue, this`answered, this`calls, this`completedMultiparts
      ensures Valid() && queue == old(queue) - {End(u)} && u !in old(calls)
      ensures u in calls && calls == old(calls)[u := calls[u]]
    {
      var up := uploads[u];
      StageOf(u);
      StageEnded(answers, u, up, Initiate(u) in Sent(), queue, calls);
      queue := queue - {End(u)};
      answered := answered + multiset{End(u)};
      completedMultiparts := completedMultiparts + 1;
      match up.final {
        case Some(CompleteRequest(_)) =>
          calls := calls[u := if answers(End(u)).Ok? then Report(true, None) else Report(false, Some(End(u)))];
        case Some(AbortRequest) =>
          calls := calls[u := Report(false, Some(Part(u, up.errorMessageId)))];
      }
      assert Sane();
      OneMoves(answers, old(uploads), Sent(), old(queue), old(calls), u, End(u), uploads, queue, calls);
      BookAnswer(Sent(), uploads, uploads, old(queue), old(answered), End(u));
    }

    // -- the event loop, seen from here ---------------------------------------------------------

    method FirePlain(m: Message, ghost n: nat)
      requires Valid() && m in queue && m.Plain? && RanksAtMost(n)
      modifies this`queue, this`answered
      ensures Valid() && queue == old(queue) - {m}
      ensures RanksAtMost(n) && Extends(old(calls))
      ensures SameParts(old(uploads), uploads)
    {
      ghost var q := queue;
      BookAnswer(Sent(), uploads, uploads, queue, answered, m);
      queue := queue - {m};
      answered := answered + multiset{m};
      forall u: nat | u < |uploads|
        ensures Stage(answers, u, uploads[u], Initiate(u) in Sent(), queue, calls) && RankOf(u) <= n
      {
        assert old(RankOf(u)) <= n;
        assert StageAt(answers, uploads, Sent(), q, calls, u);
        StageFrame(answers, u, uploads[u], Initiate(u) in Sent(), q, calls, queue, calls, m);
      }
    }

    method FireInitiate(u: nat, ghost n: nat)
      requires Valid() && Initiate(u) in queue && u < |uploads| && RanksAtMost(n)
      modifies this`queue, this`answered, this`uploads, this`calls, this`completedMultiparts
      ensures Valid() && queue == old(queue) - {Initiate(u)}
      ensures RanksAtMost(n) && Extends(old(calls))
      ensures SameParts(old(uploads), uploads)
    {
      StageOf(u);
      InitiateDone(u);
      forall v: nat | v < |uploads|
        ensures RankOf(v) <= n
      {
        assert old(RankOf(v)) <= n;
      }
    }

    method FirePart(u: nat, i: nat, ghost n: nat)
      requires Valid() && Part(u, i) in queue && u < |uploads| && RanksAtMost(n)
      modifies this`queue, this`answered, this`uploads, this`calls, this`completedMultiparts
      ensures Valid() && queue == old(queue) - {Part(u, i)}
      ensures RanksAtMost(n) && Extends(old(calls))
      ensures SameParts(old(uploads), uploads)
    {
      StageOf(u);
      PartIsQuiet(answers, u, uploads[u], Initiate(u) in Sent(), queue, calls, i);
      PartFinished(u, i);
      forall v: nat | v < |uploads|
        ensures RankOf(v) <= n
      {
        assert old(RankOf(v)) <= n;
      }
    }

    method FireEnd(u: nat, ghost n: nat)
      requires Valid() && End(u) in queue && u < |uploads| && RanksAtMost(n)
      modifies this`queue, this`answered, this`uploads, this`calls, this`completedMultiparts
      ensures Valid() && queue == old(queue) - {End(u)}
      ensures RanksAtMost(n) && Extends(old(calls))
      ensures SameParts(old(uploads), uploads)
    {
      EndDone(u);
      forall v: nat | v < |uploads|
        ensures RankOf(v) <= n
      {
        assert old(RankOf(v)) <= n;
      }
    }

    /** One message is answered and its callback runs. */
    method Fire(m: Message, ghost n: nat)
      requires Valid() && m in queue && RanksAtMost(n)
      modifies this`queue, this`answered, this`uploads, this`calls, this`completedMultiparts
      ensures Valid() && queue == old(queue) - {m}
      ensures RanksAtMost(n) && Extends(old(calls))
      ensures SameParts(old(uploads), uploads)
    {
      match m
      case Plain(_) => FirePlain(m, n);
      case Initiate(u) => FireInitiate(u, n);
      case Part(u, i) => FirePart(u, i, n);
      case End(u) => FireEnd(u, n);
    }

    /** `sendReceiverHandle.processSync()`: every queued message is answered once, in any order. */
    method Drain(ghost n: nat)
      requires Valid() && RanksAtMost(n)
      modifies this`queue, this`answered, this`uploads, this`calls, this`completedMultiparts
      ensures Valid() && queue == {}
      ensures RanksAtMost(n) && Extends(old(calls))
      ensures SameParts(old(uploads), uploads)
    {
      while queue != {}
        invariant Valid() && RanksAtMost(n) && Extends(old(calls))
        invariant SameParts(old(uploads), uploads)
        decreases queue
      {
        var m :| m in queue;
        Fire(m, n);
      }
    }

    // -- sending --------------------------------------------------------------------------------

    /** The first loop of a round: every message not sent yet goes to the queue. */
    method SendMessages(ghost n: nat)
      requires Valid() && queue == {} && n > 0 && RanksAtMost(n)
      modifies this`queue, this`messageCounter
      ensures Valid() && messageCounter == |messages|
      ensures forall u: nat :: u < |uploads| ==> Before(n, u)
    {
      while messageCounter < |messages|
        invariant Valid()
        invariant forall u: nat :: u < |uploads| ==> Before(n, u)
        decreases |messages| - messageCounter
      {
        SendNext(n);
      }
    }

    method SendNext(ghost n: nat)
      requires Valid() && messageCounter < |messages|
      requires forall u: nat :: u < |uploads| ==> Before(n, u)
      modifies this`queue, this`messageCounter
      ensures Valid() && messageCounter == old(messageCounter) + 1
      ensures queue == old(queue) + {messages[old(messageCounter)]}
      ensures forall u: nat :: u < |uploads| ==> Before(n, u)
    {
      var m := messages[messageCounter];
      ghost var q, sent := queue, Sent();
      assert m !in sent;
      BookSend(sent, uploads, queue, answered, m);
      queue := queue + {m};
      messageCounter := messageCounter + 1;
      assert Sent() == sent + [m];
      forall u: nat
        ensures StageAt(answers, uploads, Sent(), queue, calls, u)
        ensures u < |uploads| ==> Before(n, u)
      {
        if u < |uploads| {
          assert old(Before(n, u));
          assert StageAt(answers, uploads, sent, q, calls, u);
          SendOne(answers, u, uploads[u], sent, q, calls, m);
        }
      }
    }

    method QueueParts(u: nat)
      requires Sane() && u < |uploads| && |uploads[u].eTags| == uploads[u].parts
      modifies this`queue
      ensures Sane() && old(queue) <= queue
      ensures forall i: nat :: i < |uploads[u].eTags| ==> Part(u, i) in queue
      ensures forall m :: m in queue && m !in old(queue) ==> m.Part? && m.u == u && m.i < |uploads[u].eTags|
    {
      var i := 0;
      while i < |uploads[u].eTags|
        invariant 0 <= i <= |uploads[u].eTags| && Sane() && old(queue) <= queue
        invariant forall j: nat :: j < i ==> Part(u, j) in queue
        invariant forall m :: m in queue && m !in old(queue) ==> m.Part? && m.u == u && m.i < i
      {
        queue := queue + {Part(u, i)};
        i := i + 1;
      }
    }

    method SetState(u: nat, state: UploadState)
      requires u < |uploads| && Sane()
      requires Stages(answers, uploads[u := uploads[u].(state := state)], Sent(), queue, calls)
      requires Booked(Sent(), uploads[u := uploads[u].(state := state)], queue, answered)
      modifies this`uploads
      ensures Valid() && uploads == old(uploads)[u := old(uploads[u]).(state := state)]
    {
      uploads := uploads[u := uploads[u].(state := state)];
    }

    /** `state == Sending`: all parts go to the queue, then the state becomes Processing. */
    method SendParts(u: nat)
      requires Valid() && u < |uploads| && uploads[u].state == Sending && NoneQueued(queue, u)
      modifies this`queue, this`uploads
      ensures Valid() && uploads == old(uploads)[u := old(uploads[u]).(state := Processing)]
      ensures old(RankOf(u)) == 2 && RankOf(u) == if uploads[u].parts == 0 then 0 else 1
      ensures Untouched(answers, old(uploads), Sent(), old(queue), queue, calls, u)
    {
      ghost var up, q := uploads[u], queue;
      StageOf(u);
      SendingShape(answers, u, up, Initiate(u) in Sent(), queue, calls);
      QueueParts(u);
      OthersUntouched(answers, uploads, Sent(), q, queue, calls, u);
      PartsAreQuiet(answers, u, up, q, queue, calls);
      Rejoin(answers, uploads, Sent(), q, queue, calls, u, up.(state := Processing));
      BookParts(Sent(), uploads, u, q, queue, answered);
      SetState(u, Processing);
    }

    /** `state == Validating`: the final request goes to the queue, the state becomes Default. */
    method SendEnd(u: nat)
      requires Valid() && u < |uploads| && uploads[u].state == Validating && NoneQueued(queue, u)
      modifies this`queue, this`uploads
      ensures Valid() && uploads == old(uploads)[u := old(uploads[u]).(state := Default)]
      ensures old(RankOf(u)) == 1 && RankOf(u) == 0
      ensures Untouched(answers, old(uploads), Sent(), old(queue), queue, calls, u)
    {
      var up := uploads[u];
      ghost var q := queue;
      StageOf(u);
      EndIsQuiet(answers, u, up, Initiate(u) in Sent(), queue, calls);
      queue := queue + {End(u)};
      OthersUntouched(answers, uploads, Sent(), q, queue, calls, u);
      Rejoin(answers, uploads, Sent(), q, queue, calls, u, up.(state := Default));
      BookEnd(Sent(), uploads, u, q, answered);
      SetState(u, Default);
    }

    /** One turn of the second loop of a round: the upload sends what its state calls for. */
    method Turn(u: nat)
      requires Valid() && u < |uploads| && messageCounter == |messages|
      requires Initiate(u) in queue || NoneQueued(queue, u)
      modifies this`queue, this`uploads
      ensures Valid() && |uploads| == |old(uploads)|
      ensures uploads == old(uploads)[u := uploads[u]] && uploads[u].parts == old(uploads[u].parts)
      ensures Initiate(u) in old(queue) ==> RankOf(u) == old(RankOf(u))
      ensures Initiate(u) !in old(queue) ==> RankOf(u) <= if old(RankOf(u)) == 0 then 0 else old(RankOf(u)) - 1
      ensures Untouched(answers, old(uploads), Sent(), old(queue), queue, calls, u)
    {
      assert Sent() == messages;
      StageOf(u);
      if uploads[u].state == Sending {
        SendingIsQuiet(answers, u, uploads[u], Initiate(u) in Sent(), queue, calls);
        SendParts(u);
      } else if uploads[u].state == Validating {
        SendingIsQuiet(answers, u, uploads[u], Initiate(u) in Sent(), queue, calls);
        SendEnd(u);
      } else {
        RankAtRest(answers, u, uploads[u], Initiate(u) in Sent(), queue, calls);
        OthersUntouched(answers, uploads, Sent(), queue, queue, calls, u);
      }
    }

    /** What the second loop finds: an initiate request in the queue, or nothing. */
    ghost predicate Before(n: nat, v: nat)
      reads this
      requires v < |uploads|
    {
      RankOf(v) <= n && (if Initiate(v) in queue then RankOf(v) < n else NoneQueued(queue, v))
    }

    method TurnAmongAll(u: nat, ghost n: nat)
      requires Valid() && u < |uploads| && messageCounter == |messages| && n > 0 && Before(n, u)
      modifies this`queue, this`uploads
      ensures Valid() && SameParts(old(uploads), uploads) && RankOf(u) <= n - 1
      ensures forall v: nat :: v < |uploads| && v != u ==> RankOf(v) == old(RankOf(v))
      ensures forall v: nat :: v < |uploads| && v != u && old(Before(n, v)) ==> Before(n, v)
    {
      Turn(u);
      forall v: nat | v < |uploads| && v != u
        ensures RankOf(v) == old(RankOf(v)) && (old(Before(n, v)) ==> Before(n, v))
      {
        assert SameAt(answers, old(uploads), Sent(), old(queue), queue, calls, v);
      }
    }

    /** The second loop of a round: every upload comes one round nearer to its end. */
    method SendUploads(ghost n: nat)
      requires Valid() && messageCounter == |messages| && n > 0
      requires forall v: nat :: v < |uploads| ==> Before(n, v)
      modifies this`queue, this`uploads
      ensures Valid()
      ensures SameParts(old(uploads), uploads)
      ensures RanksAtMost(n - 1)
    {
      var u := 0;
      while u < |uploads|
        invariant 0 <= u <= |uploads| && Valid()
        invariant SameParts(old(uploads), uploads)
        invariant forall v: nat :: v < u ==> RankOf(v) <= n - 1
        invariant forall v: nat :: u <= v < |uploads| ==> Before(n, v)
      {
        TurnAmongAll(u, n);
        u := u + 1;
      }
    }

    // -- the loop -------------------------------------------------------------------------------

    /** Both loops of a round. */
    method SendAll(ghost n: nat)
      requires Valid() && queue == {} && n > 0 && RanksAtMost(n)
      modifies this`queue, this`uploads, this`messageCounter
      ensures Valid() && SameParts(old(uploads), uploads)
      ensures RanksAtMost(n - 1) && messageCounter == |messages|
    {
      SendMessages(n);
      SendUploads(n);
    }

    /** The body of the do-while loop brings every upload one round nearer to its end. */
    method Round(ghost n: nat)
      requires Valid() && queue == {} && n > 0 && RanksAtMost(n)
      modifies this`queue, this`answered, this`uploads, this`calls, this`completedMultiparts, this`messageCounter
      ensures Valid() && queue == {} && Extends(old(calls)) && SameParts(old(uploads), uploads)
      ensures RanksAtMost(n - 1) && messageCounter == |messages|
    {
      SendAll(n);
      Drain(n - 1);
    }

    method OneRound(ghost rounds: nat)
      requires Valid() && queue == {} && RanksAtMost(if rounds <= 3 then 3 - rounds else 0)
      modifies this`queue, this`answered, this`uploads, this`calls, this`completedMultiparts, this`messageCounter
      ensures Valid() && queue == {} && Extends(old(calls)) && SameParts(old(uploads), uploads)
      ensures RanksAtMost(if rounds + 1 <= 3 then 3 - (rounds + 1) else 0)
      ensures NoneStuck() == old(NoneStuck()) && messageCounter == |messages|
      ensures rounds + 1 >= 3 ==> (completedMultiparts == |uploads| <==> NoneStuck())
    {
      Round(if rounds < 3 then 3 - rounds else 1);
      StuckKept(old(uploads));
      if rounds + 1 >= 3 { AtRest(); }
    }

    lemma StuckKept(before: seq<Upload>)
      requires SameParts(before, uploads)
      ensures NoneStuck() <==> forall u: nat :: u < |before| ==> !Stuck(answers, u, before[u].parts)
    {
    }

    /** The do-while loop. */
    method Rounds(limit: nat) returns (ended: bool, rounds: nat)
      requires Valid() && queue == {}
      modifies this`queue, this`answered, this`uploads, this`calls, this`completedMultiparts, this`messageCounter
      ensures Valid() && queue == {} && SameParts(old(uploads), uploads) && Extends(old(calls))
      ensures rounds <= limit && (ended ==> rounds <= 3 && completedMultiparts == |uploads|)
      ensures !ended ==> rounds == limit && (limit > 0 ==> completedMultiparts != |uploads|)
      ensures limit > 0 ==> messageCounter == |messages|
      ensures !ended && limit >= 3 ==> RanksAtMost(0)
    {
      rounds := 0;
      ended := false;
      while rounds < limit
        invariant Valid() && queue == {} && Extends(old(calls)) && SameParts(old(uploads), uploads)
        invariant rounds <= limit && RanksAtMost(if rounds <= 3 then 3 - rounds else 0)
        invariant rounds > 0 ==> completedMultiparts != |uploads| && messageCounter == |messages|
        invariant rounds >= 3 ==> !NoneStuck()
        decreases limit - rounds
      {
        OneRound(rounds);
        rounds := rounds + 1;
        if |uploads| == completedMultiparts {
          ended := true;
          break;
        }
      }
    }

    /** The loop of `processSync` on an idle transaction, watched for at most `limit` rounds. It ends, after at most three
        rounds, exactly if no upload that was initiated has zero parts; otherwise no number of rounds suffices.
        Every other upload makes its user callback exactly once, with the right report. Every message is sent and answered once: those
        of `messages` after one round, the parts and the last requests of the uploads by the end. */
    method ProcessSync(limit: nat) returns (ended: bool, rounds: nat)
      requires Valid() && queue == {}
      modifies this`queue, this`answered, this`uploads, this`calls, this`completedMultiparts, this`messageCounter
      ensures Valid() && queue == {} && SameParts(old(uploads), uploads) && Extends(old(calls))
      ensures rounds <= limit && (ended ==> rounds <= 3 && completedMultiparts == |uploads|)
      ensures !ended ==> rounds == limit && (limit > 0 ==> completedMultiparts != |uploads|)
      ensures limit >= 3 ==> (ended <==> NoneStuck())
      ensures ended ==> NoneStuck()
      ensures ended || limit >= 3 ==> ReportsComplete()
      ensures forall u: nat :: u in calls ==> u < |uploads| && !Stuck(answers, u, uploads[u].parts)
      ensures Unanswered(messages[old(messageCounter)..], old(answered))
      ensures NoneTwice() && (limit > 0 ==> messageCounter == |messages| && MessagesAnswered())
      ensures ended || limit >= 3 ==> UploadsAnswered()
    {
      UnsentUnanswered();
      ended, rounds := Rounds(limit);
      StuckNeverReported();
      AnsweredOnce();
      if ended {
        CompletedMeansReported();
      } else if limit >= 3 {
        AtRest();
      }
    }

    /** Of every upload that was initiated each part has been answered once, and the last request too if there are parts; of the
        others none. */
    ghost predicate UploadsAnswered()
      reads this`uploads, this`answered
    {
      forall u: nat :: u < |uploads| ==>
        && (forall i: nat :: answered[Part(u, i)] == if answers(Initiate(u)).Ok? && i < uploads[u].parts then 1 else 0)
        && answered[End(u)] == if answers(Initiate(u)).Ok? && uploads[u].parts > 0 then 1 else 0
    }

    /** Every message of `messages` has been answered exactly once. */
    ghost predicate MessagesAnswered()
      reads this`messages, this`answered
    {
      forall m :: m in messages ==> answered[m] == 1
    }

    ghost predicate NoneTwice()
      reads this`answered
    {
      forall m: Message :: answered[m] <= 1
    }

    lemma UnsentUnanswered()
      requires Valid() && queue == {}
      ensures Unanswered(messages[messageCounter..], answered)
    {
      forall m | m in messages[messageCounter..]
        ensures answered[m] == 0
      {
        assert m !in Sent() && answered[m] + 0 == Expected(Sent(), uploads, m);
      }
    }

    lemma AnsweredOnce()
      requires Valid() && queue == {}
      ensures NoneTwice() && (messageCounter == |messages| ==> MessagesAnswered())
    {
      forall m: Message
        ensures answered[m] <= 1 && (messageCounter == |messages| && m in messages ==> answered[m] == 1)
      {
        assert answered[m] + 0 == Expected(Sent(), uploads, m);
        if messageCounter == |messages| { assert Sent() == messages; }
      }
    }

    /** Uploads that have made their callback, or are stuck, have everything answered. */
    lemma RestIsAnswered()
      requires Valid() && queue == {} && forall u: nat :: u < |uploads| ==> u in calls || RankOf(u) == 0
      ensures UploadsAnswered()
    {
      forall u: nat | u < |uploads|
        ensures PartsOut(uploads[u]) == answers(Initiate(u)).Ok?
        ensures EndOut(uploads[u]) == (answers(Initiate(u)).Ok? && uploads[u].parts > 0)
      {
        StageOf(u);
        QuietIsNotDefault(answers, u, uploads[u], queue);
      }
      forall u: nat | u < |uploads|
        ensures forall i: nat :: answered[Part(u, i)] == if answers(Initiate(u)).Ok? && i < uploads[u].parts then 1 else 0
        ensures answered[End(u)] == if answers(Initiate(u)).Ok? && uploads[u].parts > 0 then 1 else 0
      {
        forall i: nat
          ensures answered[Part(u, i)] == if answers(Initiate(u)).Ok? && i < uploads[u].parts then 1 else 0
        {
          assert answered[Part(u, i)] + 0 == Expected(Sent(), uploads, Part(u, i));
        }
        assert answered[End(u)] + 0 == Expected(Sent(), uploads, End(u));
      }
    }

    ghost predicate NoneStuck()
      reads this`uploads
    {
      forall u: nat :: u < |uploads| ==> !Stuck(answers, u, uploads[u].parts)
    }

    /** The user callbacks made are those of all uploads that are not stuck, and each has the right report. */
    ghost predicate ReportsComplete()
      reads this`uploads, this`calls
    {
      && (forall u: nat :: u in calls <==> u < |uploads| && !Stuck(answers, u, uploads[u].parts))
      && (forall u: nat :: u in calls ==> RightReport(answers, u, uploads[u].parts, calls[u]))
    }

    lemma StuckNeverReported()
      requires Valid()
      ensures forall u: nat :: u in calls ==> u < |uploads| && !Stuck(answers, u, uploads[u].parts)
    {
      forall u: nat | u in calls
        ensures u < |uploads| && !Stuck(answers, u, uploads[u].parts)
      {
        StageOf(u);
      }
    }

    /** Uploads that need no further round have made their callback, or are stuck. */
    lemma AtRest()
      requires Valid() && queue == {} && RanksAtMost(0)
      ensures ReportsComplete() && UploadsAnswered()
      ensures completedMultiparts == |uploads| <==> NoneStuck()
    {
      RestIsAnswered();
      forall u: nat
        ensures u in calls <==> u < |uploads| && !Stuck(answers, u, uploads[u].parts)
        ensures u in calls ==> RightReport(answers, u, uploads[u].parts, calls[u])
      {
        if u < |uploads| {
          assert RankOf(u) <= 0;
          StageOf(u);
        }
      }
      if NoneStuck() { RangeSize(calls.Keys, |uploads|); }
      SubsetOfRange(calls.Keys, |uploads|);
    }

    lemma CompletedMeansReported()
      requires Valid() && queue == {} && completedMultiparts == |uploads|
      ensures ReportsComplete() && NoneStuck() && UploadsAnswered()
    {
      SubsetOfRange(calls.Keys, |uploads|);
      RestIsAnswered() by {
        assert forall u: nat :: u < |uploads| ==> u in calls.Keys;
      }
      forall u: nat | u < |uploads|
        ensures u in calls && RightReport(answers, u, uploads[u].parts, calls[u])
        ensures !Stuck(answers, u, uploads[u].parts)
      {
        assert u in calls.Keys;
        StageOf(u);
      }
    }
  }

  /** Once the upload of an object whose part count wraps to zero is initiated, `processSync` does not end, however long it is
      watched. Such objects exist for all but the largest split sizes (SomeObjectWraps). */
  method UploadNeverEnds(answers: Answers, size: nat, splitSize: nat, limit: nat) returns (ended: bool, rounds: nat)
    requires 0 < size < Words.WORD && splitSize > 0 && PartPlan.PartCount(size, splitSize) == 0 && answers(Initiate(0)).Ok?
    ensures !ended && rounds == limit
  {
    var transaction := new Transaction(answers);
    transaction.PutMultiPart(PartPlan.PartCount(size, splitSize));
    ghost var uploads := transaction.uploads;
    assert uploads == [NewUpload(0)];
    ended, rounds := transaction.ProcessSync(limit);
    OneIsStuck(answers, uploads, transaction.uploads);
  }

  lemma OneIsStuck(answers: Answers, before: seq<Upload>, after: seq<Upload>)
    requires before == [NewUpload(0)] && SameParts(before, after) && answers(Initiate(0)).Ok?
    ensures |after| == 1 && Stuck(answers, 0, after[0].parts)
  {
    assert before[0].parts == 0;
  }
}
