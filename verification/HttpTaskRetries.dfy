/** What a failed attempt leaves, and how many there are: src/network/http_message.cpp when the pool always connects. */
module HttpTaskRetries {
  import opened Options
  import opened DataVectors
  import opened HttpTask
  import opened HttpTaskRuns
  import opened HttpTaskTheorems
  import H = HttpHelper

  /** The failure a completion means for the attempt: 0 and negative numbers are what the kernel reports, 125 a request cancelled at its
      deadline, 4 an interrupted call, 11 and 115 a busy one. A send that fails otherwise does not end the attempt. */
  ghost predicate Fails(t: Task, c: Completion, failure: Failure) {
    match c
    case Took(_) => false
    case Gave(bytes) => failure == HTTP && H.Finished(t.log.received + bytes, None).Throws?
    case Reported(code) =>
      if code == -125 || code == -4 then failure == Timeout
      else t.phase == Receiving && code != -11 && code != -115 && failure == if code == 0 then Empty else Recv
  }

  /** The message for the next attempt: signed again once a protocol failure is on record, whatever failed now. */
  function NextMessage(cfg: Config, t: Task, failure: Failure): string {
    if cfg.resigns && (failure == HTTP || HTTP in t.failureCode) then cfg.resign(t.message) else t.message
  }

  /** After a failed attempt: one more failure on record, and either the end, with the 34th failure, or a new attempt that sends from the
      start of its message. */
  ghost predicate Restarted(cfg: Config, t: Task, failure: Failure, u: Task) {
    && u.failures == t.failures + 1 && u.failureCode == t.failureCode + {failure} && u.message == NextMessage(cfg, t, failure)
    && u.log.returned == t.log.returned + 1
    && if u.failures >= 34 then
         u.phase == Aborted && u.connection.None?
       else
         && u.phase == Sending && u.sendOffset == 0 && u.info.None? && u.buffer.size == 0 && u.log.sent == "" && u.log.received == ""
         && u.log.tries == t.log.tries + 1 && cfg.connect(t.log.tries).Up? && u.connection == Some(cfg.connect(t.log.tries).fd)
         && u.request == Some(Window(cfg, u, u.connection.value))
  }

  /** Between the two turns. */
  ghost predicate GivenUpOrReset(cfg: Config, t: Task, failure: Failure, u: Task) {
    && u.failures == t.failures + 1 && u.failureCode == t.failureCode + {failure} && u.message == NextMessage(cfg, t, failure)
    && u.log.returned == t.log.returned + 1 && u.log.tries == t.log.tries && u.connection.None?
    && u.phase == (if u.failures >= 34 then Aborted else Init)
    && (u.phase == Init ==> u.sendOffset == 0 && u.info.None? && u.buffer.size == 0)
  }

  lemma FailedTurn(cfg: Config, v: Task, failure: Failure, t: Task)
    requires Always(v) && Alike(t, v)
    ensures GivenUpOrReset(cfg, t, failure, Fail(cfg, v, failure, FAILURES_MAX).task)
  {
  }

  /** The first turn after the completion. */
  lemma FailsNow(cfg: Config, t: Task, c: Completion, failure: Failure)
    requires Waiting(cfg, t) && Possible(t, c) && Fails(t, c, failure)
    ensures Inside(cfg, t, t.request.value) && (t.phase == Sending <==> t.request.value.area != Buffered)
    ensures Ready(cfg, Land(cfg, t, c)) && Entry(cfg, Land(cfg, t, c))
    ensures var turn := OneTurn(cfg, Land(cfg, t, c));
            turn.Again? && exists v :: turn == Fail(cfg, v, failure, FAILURES_MAX) && Always(v) && Alike(t, v)
  {
    LandKeeps(cfg, t, c);
    var u := Land(cfg, t, c);
    EntryReady(cfg, u);
    if c.Gave? {
      CachedVerdict(t.log.received, c.bytes, t.info);
      var w := Counted(u, |c.bytes|);
      assert w.buffer.Data() == t.log.received + c.bytes;
      assert OneTurn(cfg, u) == Fail(cfg, w, HTTP, FAILURES_MAX) && Always(w) && Alike(t, w);
    } else {
      assert OneTurn(cfg, u) == Fail(cfg, u, failure, FAILURES_MAX) && Always(u) && Alike(t, u);
    }
  }

  /** Only the request, the buffer and the bytes received differ. */
  ghost predicate Alike(t: Task, v: Task) {
    && !v.Over() && v.connection == t.connection && v.connection.Some? && v.failures == t.failures && v.failureCode == t.failureCode
    && v.message == t.message && v.log.tries == t.log.tries && v.log.returned == t.log.returned
  }

  /** The second turn: a new connection, or the end. */
  lemma StartsAgain(cfg: Config, u: Task)
    requires Entry(cfg, u) && Ready(cfg, u) && (u.phase == Aborted || u.phase == Init) && cfg.connect(u.log.tries).Up?
    ensures var r := Execute(cfg, u);
            && r.Return? && r.task.failures == u.failures && r.task.failureCode == u.failureCode && r.task.message == u.message
            && r.task.log.returned == u.log.returned
            && (u.phase == Aborted ==> r.task == u)
            && (u.phase == Init ==>
                  && r.task.phase == Sending && r.task.sendOffset == 0 && r.task.info == u.info && r.task.buffer == u.buffer
                  && r.task.log.sent == "" && r.task.log.received == "" && r.task.log.tries == u.log.tries + 1
                  && r.task.connection == Some(cfg.connect(u.log.tries).fd)
                  && r.task.request == Some(Window(cfg, r.task, r.task.connection.value)))
  {
  }

  lemma AttemptGoesOn(cfg: Config, t: Task, failure: Failure, u: Task)
    requires Entry(cfg, u) && Ready(cfg, u) && GivenUpOrReset(cfg, t, failure, u) && cfg.connect(t.log.tries).Up?
    ensures Execute(cfg, u).Return? && Restarted(cfg, t, failure, Execute(cfg, u).task)
  {
    StartsAgain(cfg, u);
  }

  lemma FirstTurn(cfg: Config, t: Task, c: Completion, failure: Failure)
    requires Waiting(cfg, t) && Possible(t, c) && Fails(t, c, failure)
    ensures Inside(cfg, t, t.request.value) && (t.phase == Sending <==> t.request.value.area != Buffered)
    ensures Ready(cfg, Land(cfg, t, c)) && Entry(cfg, Land(cfg, t, c))
    ensures var turn := OneTurn(cfg, Land(cfg, t, c)); turn.Again? && GivenUpOrReset(cfg, t, failure, turn.task)
  {
    FailsNow(cfg, t, c, failure);
    var v :| OneTurn(cfg, Land(cfg, t, c)) == Fail(cfg, v, failure, FAILURES_MAX) && Always(v) && Alike(t, v);
    FailedTurn(cfg, v, failure, t);
  }

  lemma TwoTurns(cfg: Config, u: Task)
    requires Entry(cfg, u) && Ready(cfg, u) && OneTurn(cfg, u).Again?
    ensures var w := OneTurn(cfg, u).task; Entry(cfg, w) && Ready(cfg, w) && Execute(cfg, u) == Execute(cfg, w)
  {
    TurnKeeps(cfg, u);
    EntryReady(cfg, OneTurn(cfg, u).task);
    TurnDescends(cfg, u);
  }

  /** Every way in which an attempt can fail. */
  lemma AttemptFails(cfg: Config, t: Task, c: Completion, failure: Failure)
    requires Waiting(cfg, t) && Possible(t, c) && Fails(t, c, failure) && cfg.connect(t.log.tries).Up?
    ensures Inside(cfg, t, t.request.value) && (t.phase == Sending <==> t.request.value.area != Buffered)
    ensures Ready(cfg, Land(cfg, t, c)) && Execute(cfg, Land(cfg, t, c)).Return?
    ensures Restarted(cfg, t, failure, Execute(cfg, Land(cfg, t, c)).task)
  {
    FirstTurn(cfg, t, c, failure);
    var u := Land(cfg, t, c);
    TwoTurns(cfg, u);
    AttemptGoesOn(cfg, t, failure, OneTurn(cfg, u).task);
  }

  /** A send that breaks otherwise does not end the attempt: the failure is recorded, and the response is read all the same, unless
      the caller gave no memory for it. */
  lemma BrokenSendReads(cfg: Config, t: Task, code: int)
    requires Waiting(cfg, t) && t.phase == Sending && code <= 0 && code !in {-125, -4, -11, -115}
    ensures Inside(cfg, t, t.request.value) && t.request.value.area != Buffered && Possible(t, Reported(code))
    ensures Ready(cfg, Land(cfg, t, Reported(code))) && Execute(cfg, Land(cfg, t, Reported(code))).Return?
    ensures var u := Execute(cfg, Land(cfg, t, Reported(code))).task;
            && u.failures == t.failures && u.message == t.message && u.connection == t.connection && u.recvOffset == 0 && u.log == t.log
            && if !t.buffer.Owned() && |t.buffer.cells| == 0 then
                 u.phase == Aborted && u.failureCode == t.failureCode + {Send, Recv}
               else
                 u.phase == Receiving && u.failureCode == t.failureCode + {Send} && u.request.Some? && u.request.value.area == Buffered && u.request.value.start == 0
  {
    var c := Reported(code);
    LandKeeps(cfg, t, c);
    var u := Land(cfg, t, c);
    EntryReady(cfg, u);
    assert OneTurn(cfg, u) == BeginReceiving(u.(failureCode := u.failureCode + {Send}));
    TwoTurns(cfg, u);
    ReadsFromStart(cfg, OneTurn(cfg, u).task);
    assert t.failureCode + {Send} + {Recv} == t.failureCode + {Send, Recv};
  }

  lemma ReadsFromStart(cfg: Config, t: Task)
    requires Ready(cfg, t) && t.phase == InitReceiving && t.recvOffset == 0 && t.buffer.size == 0 && t.connection.Some?
    ensures var r := Execute(cfg, t);
            && r.Return? && r.task.failures == t.failures && r.task.message == t.message && r.task.connection == t.connection
            && r.task.recvOffset == 0 && r.task.log == t.log
            && if !t.buffer.Owned() && |t.buffer.cells| == 0 then
                 r.task.phase == Aborted && r.task.failureCode == t.failureCode + {Recv}
               else
                 && r.task.phase == Receiving && r.task.failureCode == t.failureCode && r.task.request.Some?
                 && r.task.request.value.area == Buffered && r.task.request.value.start == 0
  {
  }

  /** A busy answer to a send changes nothing: the same bytes are asked for again. */
  lemma BusySendWaits(cfg: Config, t: Task, code: int)
    requires Waiting(cfg, t) && t.phase == Sending && code in {-11, -115} && t.sendOffset < |All(cfg, t)|
    ensures Inside(cfg, t, t.request.value) && t.request.value.area != Buffered && Possible(t, Reported(code))
    ensures Ready(cfg, Land(cfg, t, Reported(code))) && Execute(cfg, Land(cfg, t, Reported(code))) == Return(t)
  {
    LandKeeps(cfg, t, Reported(code));
    var u := Land(cfg, t, Reported(code));
    EntryReady(cfg, u);
    assert OneTurn(cfg, u) == ArmSend(cfg, u, t.connection.value);
    SameWindow(cfg, t, u);
  }

  lemma SameWindow(cfg: Config, t: Task, u: Task)
    requires t.sendOffset <= |t.message| + |cfg.put| && t.phase == Sending && t.connection.Some?
    requires t.request == Some(Window(cfg, t, t.connection.value)) && u == t.(request := u.request)
    ensures ArmSend(cfg, u, t.connection.value) == Return(t)
  {
  }

  function Cancelled(n: nat): seq<Completion> {
    if n == 0 then [] else [Reported(-125)] + Cancelled(n - 1)
  }

  /** How the run ends when `n` more requests are cancelled. */
  ghost function CancelledEnd(cfg: Config, t: Task, n: nat): Turn
    requires Waiting(cfg, t)
  {
    Run(cfg, Return(t), Cancelled(n))
  }

  lemma NoneCancelled(cfg: Config, t: Task)
    requires Waiting(cfg, t)
    ensures CancelledEnd(cfg, t, 0) == Return(t)
  {
  }

  /** After `n` failures in all. */
  ghost predicate After(r: Turn, n: nat) {
    r.Return? && r.task.failures == (if n >= 34 then 34 else n) && r.task.phase == if n >= 34 then Aborted else Sending
  }

  lemma OneCancelled(cfg: Config, t: Task, n: nat) returns (u: Task)
    requires Waiting(cfg, t) && t.phase == Sending && t.failures < 34 && AlwaysUp(cfg) && n > 0
    ensures Waiting(cfg, u) && After(Return(u), u.failures) && u.failures == t.failures + 1
    ensures CancelledEnd(cfg, t, n) == CancelledEnd(cfg, u, n - 1)
  {
    var c := Reported(-125);
    AttemptFails(cfg, t, c, Timeout);
    RunOne(cfg, t, c, Cancelled(n - 1));
    u := Execute(cfg, Land(cfg, t, c)).task;
  }

  ghost predicate AlwaysUp(cfg: Config) {
    forall k: nat :: cfg.connect(k).Up?
  }

  /** From an attempt on, `n` more requests are cancelled at their deadline. */
  lemma {:induction false} CancelledRun(cfg: Config, t: Task, n: nat, total: nat)
    requires Waiting(cfg, t) && AlwaysUp(cfg) && After(Return(t), t.failures) && total == t.failures + n
    ensures After(CancelledEnd(cfg, t, n), total)
    decreases n
  {
    if t.phase == Aborted {
      AbortedStays(cfg, t, n, total);
    } else if n == 0 {
      NoneCancelled(cfg, t);
    } else {
      var u := OneCancelled(cfg, t, n);
      CancelledRun(cfg, u, n - 1, total);
    }
  }

  lemma AbortedStays(cfg: Config, t: Task, n: nat, total: nat)
    requires Waiting(cfg, t) && t.phase == Aborted && After(Return(t), t.failures) && total == t.failures + n
    ensures After(CancelledEnd(cfg, t, n), total)
  {
    OverIsFinal(cfg, t, Cancelled(n));
  }

  /** When every request is cancelled at its deadline, the task gives up with the 34th, not earlier. */
  lemma AlwaysCancelled(cfg: Config, message: string, buffer: Buffer, n: nat)
    requires buffer.Valid() && forall k: nat :: cfg.connect(k).Up?
    ensures var r := RunOf(cfg, message, buffer, Cancelled(n));
            r.Return? && r.task.failures == (if n >= 34 then 34 else n) && r.task.phase == if n >= 34 then Aborted else Sending
  {
    var t := Start(message, buffer);
    ExecuteKeeps(cfg, t);
    EntryReady(cfg, t);
    StartsAgain(cfg, t);
    CancelledRun(cfg, Execute(cfg, t).task, n, n);
  }
}
