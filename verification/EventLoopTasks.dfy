/** HTTP tasks are tasks as the event loop needs them: src/network/http_message.cpp under
    src/network/tasked_send_receiver.cpp. */
module EventLoopTasks {
  import opened DataVectors
  import opened HttpTask
  import opened HttpTaskRuns
  import opened HttpTaskTheorems
  import E = EventLoop

  /** Answers of the kernel that are possible, and never "busy". */
  ghost predicate Answers(cfg: Config, answer: Task -> Completion) {
    forall t :: Waiting(cfg, t) && t.InFlight() ==> Possible(t, answer(t)) && !Busy(answer(t))
  }

  /** Over, or with a request in flight and memory of the caller to receive into. */
  ghost predicate Steady(cfg: Config, t: Task) {
    Waiting(cfg, t) && (t.Over() || (t.InFlight() && !t.buffer.Owned()))
  }

  /** One completion, and the call of `execute` that follows. */
  ghost function Advanced(cfg: Config, t: Task, answer: Task -> Completion): (u: Task)
    requires Steady(cfg, t) && Answers(cfg, answer)
    ensures Steady(cfg, u) && (t.Over() ==> u == t) && (!t.Over() ==> u.Over() || Below(cfg, u, t))
  {
    if t.Over() then t
    else
      DrivenStep(cfg, t, answer(t));
      Execute(cfg, Land(cfg, t, answer(t))).task
  }

  ghost function After(cfg: Config, t: Task, answer: Task -> Completion, k: nat): (u: Task)
    requires Steady(cfg, t) && Answers(cfg, answer)
    ensures Steady(cfg, u)
    decreases k
  {
    if k == 0 then t else After(cfg, Advanced(cfg, t, answer), answer, k - 1)
  }

  /** The task flies for `n` completions, is over with the next, and stays so. */
  ghost predicate EndsAfter(cfg: Config, t: Task, answer: Task -> Completion, n: nat)
    requires Steady(cfg, t) && Answers(cfg, answer)
  {
    forall k: nat :: After(cfg, t, answer, k).Over() <==> k >= n
  }

  /** Every task that receives into memory of its caller is over after finitely many completions that are not "busy",
      and only then. */
  lemma {:induction false} TaskEnds(cfg: Config, t: Task, answer: Task -> Completion) returns (n: nat)
    requires Steady(cfg, t) && Answers(cfg, answer)
    ensures EndsAfter(cfg, t, answer, n)
    decreases Left(t), Stage(t), Bytes(cfg, t)
  {
    if t.Over() {
      n := 0;
      OverStays(cfg, t, answer);
    } else if Advanced(cfg, t, answer).Over() {
      OverStays(cfg, Advanced(cfg, t, answer), answer);
      n := 1;
      OneLater(cfg, t, answer, 0);
    } else {
      var m := TaskEnds(cfg, Advanced(cfg, t, answer), answer);
      n := m + 1;
      OneLater(cfg, t, answer, m);
    }
  }

  lemma OverStays(cfg: Config, t: Task, answer: Task -> Completion)
    requires Steady(cfg, t) && t.Over() && Answers(cfg, answer)
    ensures EndsAfter(cfg, t, answer, 0)
  {
    forall k: nat
      ensures After(cfg, t, answer, k).Over()
    {
      OverAt(cfg, t, answer, k);
      assert AfterIs(cfg, t, answer, k, t);
    }
  }

  ghost predicate AfterIs(cfg: Config, t: Task, answer: Task -> Completion, k: nat, u: Task)
    requires Steady(cfg, t) && Answers(cfg, answer)
  {
    After(cfg, t, answer, k) == u
  }

  lemma AfterNext(cfg: Config, t: Task, answer: Task -> Completion, k: nat, u: Task)
    requires Steady(cfg, t) && Answers(cfg, answer) && k > 0 && AfterIs(cfg, Advanced(cfg, t, answer), answer, k - 1, u)
    ensures AfterIs(cfg, t, answer, k, u)
  {
  }

  lemma {:induction false} OverAt(cfg: Config, t: Task, answer: Task -> Completion, k: nat)
    requires Steady(cfg, t) && t.Over() && Answers(cfg, answer)
    ensures AfterIs(cfg, t, answer, k, t)
  {
    if k > 0 {
      OverAt(cfg, Advanced(cfg, t, answer), answer, k - 1);
      AfterNext(cfg, t, answer, k, t);
    }
  }

  lemma OneLater(cfg: Config, t: Task, answer: Task -> Completion, m: nat)
    requires Steady(cfg, t) && !t.Over() && Answers(cfg, answer) && EndsAfter(cfg, Advanced(cfg, t, answer), answer, m)
    ensures EndsAfter(cfg, t, answer, m + 1)
  {
    forall k: nat
      ensures After(cfg, t, answer, k).Over() <==> k >= m + 1
    {
      assert k > 0 ==> After(cfg, t, answer, k) == After(cfg, Advanced(cfg, t, answer), answer, k - 1);
    }
  }

  // ---------------------------------------------------------------------------------------------
  // A batch of such tasks in the event loop
  // ---------------------------------------------------------------------------------------------

  /** A message to send, with memory of the caller for the response, and the answers its requests will get. */
  datatype Job = Job(cfg: Config, message: string, buffer: Buffer, answer: Task -> Completion)

  ghost predicate JobOk(j: Job) {
    j.buffer.Valid() && !j.buffer.Owned() && Answers(j.cfg, j.answer)
  }

  ghost predicate AllOk(jobs: seq<Job>) {
    forall m {:trigger JobOk(jobs[m])} :: 0 <= m < |jobs| ==> JobOk(jobs[m])
  }

  /** The task after its first `execute`. */
  ghost function First(j: Job): (t: Task)
    requires JobOk(j)
    ensures Steady(j.cfg, t)
  {
    FirstIsSteady(j.cfg, j.message, j.buffer);
    Execute(j.cfg, Start(j.message, j.buffer)).task
  }

  lemma FirstIsSteady(cfg: Config, message: string, buffer: Buffer)
    requires buffer.Valid() && !buffer.Owned()
    ensures var t := Start(message, buffer);
            Ready(cfg, t) && Execute(cfg, t).Return? && Steady(cfg, Execute(cfg, t).task)
  {
    var t := Start(message, buffer);
    ExecuteKeeps(cfg, t);
    QuietExecute(cfg, t);
    ExecuteStage(cfg, t);
    ExecuteInFlight(cfg, t);
  }

  /** The task after `k` executions, the first of which needs no completion. */
  ghost function Executed(j: Job, k: nat): Task
    requires JobOk(j) && k > 0
  {
    After(j.cfg, First(j), j.answer, k - 1)
  }

  function StatusOf(t: Task): E.Status {
    if t.phase == Phase.Finished then E.Finished else if t.phase == Phase.Aborted then E.Aborted else E.Flying
  }

  /** For the event loop message `m` behaves as the task does: after every number of executions they are alike. */
  ghost predicate Mirrors(b: E.Behaviour, m: nat, j: Job)
    requires JobOk(j)
  {
    && b.need(m) > 0 && Executed(j, b.need(m)).Over()
    && forall k: nat :: 0 < k <= b.need(m) ==> StatusOf(Executed(j, k)) == E.StatusAfter(b, m, k)
  }

  ghost predicate AllMirrored(b: E.Behaviour, jobs: seq<Job>) {
    forall m: nat :: m < |jobs| ==> JobOk(jobs[m]) && Mirrors(b, m, jobs[m])
  }

  /** The task is over with execution number `n` and not before. */
  ghost predicate Needs(j: Job, n: nat) {
    JobOk(j) && n > 0 && Executed(j, n).Over() && forall k: nat :: 0 < k < n ==> !Executed(j, k).Over()
  }

  lemma Needed(j: Job) returns (n: nat)
    requires JobOk(j)
    ensures Needs(j, n)
  {
    var m := TaskEnds(j.cfg, First(j), j.answer);
    n := m + 1;
  }

  ghost predicate AllPairs<A, B>(p: (A, B) -> bool, xs: seq<A>, ys: seq<B>) {
    |xs| == |ys| && forall i {:trigger p(xs[i], ys[i])} :: 0 <= i < |xs| ==> p(xs[i], ys[i])
  }

  lemma OneMorePair<A, B>(p: (A, B) -> bool, xs: seq<A>, ys: seq<B>, y: B)
    requires xs != [] && AllPairs(p, xs[..|xs| - 1], ys) && p(xs[|xs| - 1], y)
    ensures AllPairs(p, xs, ys + [y])
  {
    var before, more := xs[..|xs| - 1], ys + [y];
    forall i | 0 <= i < |xs|
      ensures p(xs[i], more[i])
    {
      if i < |before| { assert p(before[i], ys[i]); }
    }
  }

  ghost predicate AllNeed(jobs: seq<Job>, ns: seq<nat>) {
    AllPairs(Needs, jobs, ns)
  }

  lemma NeedAt(jobs: seq<Job>, ns: seq<nat>, m: nat)
    requires AllNeed(jobs, ns) && m < |jobs|
    ensures |ns| == |jobs| && Needs(jobs[m], ns[m])
  {
    var p := Needs;
    assert p(jobs[m], ns[m]);
  }

  lemma {:induction false} AllNeeded(jobs: seq<Job>) returns (ns: seq<nat>)
    requires AllOk(jobs)
    ensures AllNeed(jobs, ns)
  {
    ns := [];
    if jobs != [] {
      FewerOk(jobs);
      ns := AllNeeded(jobs[..|jobs| - 1]);
      var n := Needed(jobs[|jobs| - 1]);
      OneMorePair(Needs, jobs, ns, n);
      ns := ns + [n];
    }
  }

  lemma FewerOk(jobs: seq<Job>)
    requires AllOk(jobs) && jobs != []
    ensures JobOk(jobs[|jobs| - 1]) && AllOk(jobs[..|jobs| - 1])
  {
    var before := jobs[..|jobs| - 1];
    forall m | 0 <= m < |before|
      ensures JobOk(before[m])
    {
      assert JobOk(jobs[m]);
    }
  }

  lemma MirrorOne(b: E.Behaviour, m: nat, j: Job, n: nat)
    requires Needs(j, n) && b.need(m) == n && b.end(m) == StatusOf(Executed(j, n))
    ensures Mirrors(b, m, j)
  {
    forall k: nat | 0 < k <= n
      ensures StatusOf(Executed(j, k)) == E.StatusAfter(b, m, k)
    {
      FlyingIsNotOver(Executed(j, k));
    }
  }

  lemma FlyingIsNotOver(t: Task)
    ensures StatusOf(t) == E.Flying <==> !t.Over()
  {
  }

  /** Every batch of such tasks has a behaviour that the event loop can work with. */
  lemma BehaviourOf(jobs: seq<Job>, callback: nat -> bool) returns (b: E.Behaviour)
    requires AllOk(jobs)
    ensures E.Sensible(b) && AllMirrored(b, jobs) && b.callback == callback
  {
    var ns := AllNeeded(jobs);
    var ends := EndsOf(jobs, ns);
    b := BehaviourFrom(ns, ends, callback);
    forall m: nat | m < |jobs|
      ensures JobOk(jobs[m]) && Mirrors(b, m, jobs[m])
    {
      NeedAt(jobs, ns, m);
      MirrorOne(b, m, jobs[m], ns[m]);
    }
    forall m | 0 <= m < |jobs|
      ensures ns[m] > 0 && ends[m] != E.Flying
    {
      NeedAt(jobs, ns, m);
    }
    SensibleFrom(ns, ends, callback);
  }

  function BehaviourFrom(ns: seq<nat>, ends: seq<E.Status>, callback: nat -> bool): E.Behaviour {
    E.Behaviour((m: nat) => if m < |ns| then ns[m] else 1, (m: nat) => if m < |ends| then ends[m] else E.Aborted, callback)
  }

  lemma SensibleFrom(ns: seq<nat>, ends: seq<E.Status>, callback: nat -> bool)
    requires (forall m :: 0 <= m < |ns| ==> ns[m] > 0) && forall m :: 0 <= m < |ends| ==> ends[m] != E.Flying
    ensures E.Sensible(BehaviourFrom(ns, ends, callback))
  {
  }

  /** The outcome of a task that needs `n` executions. */
  ghost function EndOf(j: Job, n: nat): (e: E.Status)
    requires Needs(j, n)
    ensures e == StatusOf(Executed(j, n)) != E.Flying
  {
    StatusOf(Executed(j, n))
  }

  ghost function EndsOf(jobs: seq<Job>, ns: seq<nat>): seq<E.Status>
    requires AllNeed(jobs, ns)
  {
    seq(|jobs|, m requires 0 <= m < |jobs| => (NeedAt(jobs, ns, m); EndOf(jobs[m], ns[m])))
  }

  /** The event loop on a batch of HTTP tasks with memory of their callers: it ends without an exception and with an empty
      queue, every task has then been executed until it was over, with the outcome the event loop has on record, and each callback was
      made exactly once. */
  method SendBatch(b: E.Behaviour, ghost jobs: seq<Job>, n: nat, cap: nat) returns (sender: E.SendReceiver, threw: bool)
    requires |jobs| == n && cap > 0 && E.Sensible(b) && AllMirrored(b, jobs)
    ensures fresh(sender) && !threw && sender.queue == [] && |sender.book| == n
    ensures forall m: nat {:trigger sender.book[m]} :: m < n ==> Done(b, m, jobs[m], sender.book[m], sender.finishes)
  {
    var queue := seq(n, i requires 0 <= i < n => i);
    sender := new E.SendReceiver(b, cap, queue, []);
    E.StartMessages(sender.Value());
    threw := sender.SendReceive(true, 0);
    BatchDone(b, jobs, cap, sender.Value(), queue);
  }

  /** Task `m` has been executed until it was over, and the event loop knows how it ended. */
  ghost predicate Done(b: E.Behaviour, m: nat, j: Job, t: E.Ticket, finishes: seq<nat>) {
    && JobOk(j) && t.message == m && t.rounds > 0 && Needs(j, t.rounds)
    && t.status == StatusOf(Executed(j, t.rounds))
    && multiset(finishes)[m] == if b.callback(m) then 1 else 0
  }

  lemma BatchDone(b: E.Behaviour, jobs: seq<Job>, cap: nat, s: E.State, queue: seq<nat>)
    requires E.Inv(b, cap, s) && AllMirrored(b, jobs) && s.prepared == s.inFlight == {} && s.future == []
    requires E.Messages(s) == queue && |queue| == |jobs| && forall m: nat :: m < |jobs| ==> queue[m] == m
    ensures !s.failed
    ensures s.queue == [] ==> |s.book| == |jobs| && forall m: nat {:trigger s.book[m]} :: m < |jobs| ==>
              Done(b, m, jobs[m], s.book[m], s.finishes)
  {
    DequeuedIsPrefix(s);
    NoneThrown(b, jobs, cap, s, queue);
    E.NoneLeft(b, cap, s);
    if s.queue == [] {
      assert E.Dequeued(s.book) == queue;
      forall m: nat | m < |jobs|
        ensures Done(b, m, jobs[m], s.book[m], s.finishes)
      {
        assert E.Dequeued(s.book)[m] == queue[m];
        OneDone(b, m, jobs[m], s.book[m]);
      }
    }
  }

  lemma OneDone(b: E.Behaviour, m: nat, j: Job, t: E.Ticket)
    requires JobOk(j) && Mirrors(b, m, j) && t.message == m && t.rounds == b.need(m) && t.status == b.end(m)
    ensures Needs(j, t.rounds) && t.status == StatusOf(Executed(j, t.rounds))
  {
    EndIsNoThrow(b, m, j);
    forall k: nat | 0 < k < t.rounds
      ensures !Executed(j, k).Over()
    {
      FlyingIsNotOver(Executed(j, k));
    }
  }

  lemma DequeuedIsPrefix(s: E.State)
    ensures E.Dequeued(s.book) <= E.Messages(s)
  {
  }

  lemma NoneThrown(b: E.Behaviour, jobs: seq<Job>, cap: nat, s: E.State, queue: seq<nat>)
    requires E.Inv(b, cap, s) && AllMirrored(b, jobs) && s.prepared == s.inFlight == {}
    requires E.Dequeued(s.book) <= queue && forall m :: m in queue ==> m < |jobs|
    ensures !E.ThrownIn(s.book)
  {
    E.NoneLeft(b, cap, s);
    forall t: nat | t < |s.book|
      ensures s.book[t].status != E.Thrown
    {
      assert E.TicketOk(b, s.book[t], s.failed);
      var m := E.Dequeued(s.book)[t];
      assert m == queue[t] && m in queue && Mirrors(b, m, jobs[m]);
      EndIsNoThrow(b, m, jobs[m]);
    }
  }

  lemma EndIsNoThrow(b: E.Behaviour, m: nat, j: Job)
    requires JobOk(j) && Mirrors(b, m, j)
    ensures b.end(m) != E.Thrown && b.end(m) == StatusOf(Executed(j, b.need(m)))
  {
    assert StatusOf(Executed(j, b.need(m))) == E.StatusAfter(b, m, b.need(m));
  }
}
