/** What every run of a task guarantees: src/network/http_message.cpp under any answers of pool and kernel. */
module HttpTaskTheorems {
  import opened Options
  import opened DataVectors
  import opened HttpTask
  import opened HttpTaskRuns
  import H = HttpHelper
  import R = HttpResponse
  import F = HttpFraming
  import S = HttpStatus

  /** Completions one after the other, each followed by `execute`; an impossible completion ends the run. */
  ghost function Run(cfg: Config, turn: Turn, cs: seq<Completion>): (r: Turn)
    requires !turn.Again? && Kept(cfg, turn)
    ensures !r.Again? && Kept(cfg, r)
    decreases |cs|
  {
    if cs == [] || turn.Throw? || !Possible(turn.task, cs[0]) then turn
    else
      LandKeeps(cfg, turn.task, cs[0]);
      ExecuteKeeps(cfg, Land(cfg, turn.task, cs[0]));
      Run(cfg, Execute(cfg, Land(cfg, turn.task, cs[0])), cs[1..])
  }

  /** The run of a new task. */
  ghost function RunOf(cfg: Config, message: string, buffer: Buffer, cs: seq<Completion>): (r: Turn)
    requires buffer.Valid()
    ensures !r.Again? && Kept(cfg, r)
  {
    ExecuteKeeps(cfg, Start(message, buffer));
    Run(cfg, Execute(cfg, Start(message, buffer)), cs)
  }

  /** One completion in a run. */
  lemma RunOne(cfg: Config, t: Task, c: Completion, cs: seq<Completion>)
    requires Waiting(cfg, t) && Possible(t, c)
    ensures Inside(cfg, t, t.request.value) && (t.phase == Sending <==> t.request.value.area != Buffered)
    ensures Ready(cfg, Land(cfg, t, c)) && Kept(cfg, Execute(cfg, Land(cfg, t, c)))
    ensures Run(cfg, Return(t), [c] + cs) == Run(cfg, Execute(cfg, Land(cfg, t, c)), cs)
  {
    LandKeeps(cfg, t, c);
    ExecuteKeeps(cfg, Land(cfg, t, c));
    assert ([c] + cs)[1..] == cs && ([c] + cs)[0] == c;
  }

  /** The number of failures is bounded in every run, also when an exception ends it. */
  lemma FailureBound(cfg: Config, message: string, buffer: Buffer, cs: seq<Completion>)
    requires buffer.Valid()
    ensures RunOf(cfg, message, buffer, cs).task.failures <= 34
  {
    assert Always(RunOf(cfg, message, buffer, cs).task);
  }

  /** A task that is over stays exactly as it is. */
  lemma OverIsFinal(cfg: Config, t: Task, cs: seq<Completion>)
    requires Waiting(cfg, t) && t.Over()
    ensures Entry(cfg, t) && Execute(cfg, t) == Return(t) && Run(cfg, Return(t), cs) == Return(t)
  {
    EntryReady(cfg, t);
  }

  /** Every connection handed out is given back or held. A finished task holds none, and a task that is aborted holds one exactly
      when it gave up because memory of the caller was full of an incomplete response: that connection never goes back. */
  lemma ConnectionsGivenBack(cfg: Config, message: string, buffer: Buffer, cs: seq<Completion>)
    requires buffer.Valid()
    ensures var t := RunOf(cfg, message, buffer, cs).task;
            && t.log.got == t.log.returned + (if t.connection.Some? then 1 else 0)
            && (t.phase == Finished && RunOf(cfg, message, buffer, cs).Return? ==> t.log.got == t.log.returned)
            && (t.phase == Aborted && RunOf(cfg, message, buffer, cs).Return? ==>
                  (t.log.got == t.log.returned + 1 <==> Full(t)) && (t.log.got == t.log.returned <==> !Full(t)))
            && (t.InFlight() && RunOf(cfg, message, buffer, cs).Return? ==>
                  t.connection.Some? && t.request.value.fd == t.connection.value)
  {
    assert Kept(cfg, RunOf(cfg, message, buffer, cs));
  }

  /** In every attempt the kernel has taken exactly the first `sendOffset` bytes of header and upload, in order; the
      request in flight continues there, inside one of the two. */
  lemma SendConservation(cfg: Config, message: string, buffer: Buffer, cs: seq<Completion>)
    requires buffer.Valid()
    ensures var r := RunOf(cfg, message, buffer, cs);
            r.Return? && r.task.phase == Sending ==>
              var t := r.task;
              && t.sendOffset <= |All(cfg, t)| && t.log.sent == All(cfg, t)[..t.sendOffset] && t.log.received == ""
              && Inside(cfg, t, t.request.value)
              && SentBytes(cfg, t, t.request.value, t.request.value.length) <= All(cfg, t)[t.sendOffset..]
  {
    var r := RunOf(cfg, message, buffer, cs);
    if r.Return? && r.task.phase == Sending {
      WindowIsNext(cfg, r.task, r.task.connection.value);
    }
  }

  lemma WindowIsNext(cfg: Config, t: Task, fd: int)
    requires t.sendOffset <= |All(cfg, t)|
    ensures var r := Window(cfg, t, fd);
            r.area != Buffered && Inside(cfg, t, r) && SentBytes(cfg, t, r, r.length) <= All(cfg, t)[t.sendOffset..]
  {
    WindowInside(cfg, t, fd);
    var n := Window(cfg, t, fd).length;
    assert All(cfg, t)[t.sendOffset..t.sendOffset + n] == All(cfg, t)[t.sendOffset..][..n];
  }

  /** While a task receives, and once it has finished, everything was sent or the failure to send is on record; the bytes
      before `recvOffset` are those received in this attempt, and the next ones go behind them, into the buffer. */
  lemma ReceiveConservation(cfg: Config, message: string, buffer: Buffer, cs: seq<Completion>)
    requires buffer.Valid()
    ensures var r := RunOf(cfg, message, buffer, cs);
            r.Return? && r.task.phase in {Receiving, Finished} ==>
              var t := r.task;
              && (t.log.sent == All(cfg, t) || Send in t.failureCode)
              && t.recvOffset <= |t.buffer.cells| && t.log.received == t.buffer.cells[..t.recvOffset]
              && (t.phase == Receiving ==> t.request.value.start == t.recvOffset && Inside(cfg, t, t.request.value))
  {
    assert Kept(cfg, RunOf(cfg, message, buffer, cs));
  }

  /** A task finishes only when `finished` holds of exactly the bytes received in this attempt, which are the result,
      and their status text is one of the four that mean success. */
  lemma FinishedExactly(cfg: Config, message: string, buffer: Buffer, cs: seq<Completion>)
    requires buffer.Valid()
    ensures var r := RunOf(cfg, message, buffer, cs);
            r.Return? && r.task.phase == Finished ==>
              var t := r.task;
              && t.buffer.Valid() && t.buffer.Data() == t.log.received
              && var v := H.Finished(t.log.received, None);
                 && v.Says? && v.done && t.response.Some? && S.GoodStatus(t.log.received)
                 && v.info.response == t.response.value.response && v.info.length == t.response.value.length
  {
    var r := RunOf(cfg, message, buffer, cs);
    assert Kept(cfg, r);
    if r.Return? && r.task.phase == Finished { S.FinishedStatus(r.task.log.received); }
  }

  /** A finished task counts as a success exactly when it never had to start again and no send failed: the failure
      code is never cleared, so a response that arrives after one retry is not a success. */
  lemma SuccessIffNoFailure(cfg: Config, message: string, buffer: Buffer, cs: seq<Completion>)
    requires buffer.Valid()
    ensures var r := RunOf(cfg, message, buffer, cs);
            r.Return? && r.task.phase == Finished ==>
              (Success(r.task) <==> r.task.failures == 0 && Send !in r.task.failureCode)
  {
    assert Always(RunOf(cfg, message, buffer, cs).task);
  }

  // ---------------------------------------------------------------------------------------------
  // The pieces of a response
  // ---------------------------------------------------------------------------------------------

  /** The progress of framing, as the task has it. */
  ghost function Framing(t: Task): F.Progress {
    F.Waiting(t.log.received, t.info)
  }

  /** One more piece moves the task as it moves the framing: a refused header costs a failure, a complete
      response ends the task, and otherwise the task goes on with the same bytes and header. */
  lemma ReceivesAsFramed(cfg: Config, t: Task, bytes: string)
    requires Waiting(cfg, t) && t.phase == Receiving && Possible(t, Gave(bytes))
    ensures t.request.value.area == Buffered && Inside(cfg, t, t.request.value) && Entry(cfg, Land(cfg, t, Gave(bytes)))
    ensures var p, r := F.Feed(Framing(t), bytes), Execute(cfg, Land(cfg, t, Gave(bytes)));
            && (p.Failed? ==> r.task.failures > t.failures)
            && (p.Complete? ==> r.Return? && r.task.Over() && r.task.response == Some(p.info) && r.task.buffer.Valid()
                                && r.task.buffer.Data() == p.data)
            && (p.Waiting? && r.Return? && !r.task.Over() ==> r.task.phase == Receiving && Framing(r.task) == p)
  {
    LandKeeps(cfg, t, Gave(bytes));
    var u := Land(cfg, t, Gave(bytes));
    EntryReady(cfg, u);
    LandReceive(cfg, t, Gave(bytes));
    PieceJudged(cfg, u, t.log.received, bytes);
    if OneTurn(cfg, u).Again? {
      TurnDescends(cfg, u);
      FailuresGrow(cfg, OneTurn(cfg, u).task);
    }
  }

  /** When the bytes received are a complete response, the status text decides: for one of the four good ones the task is finished
      and its failure code stays, for every other text it is aborted with the failure of the protocol. Either way the connection
      goes back, and the bytes are the result. */
  lemma StatusDecides(cfg: Config, t: Task, bytes: string)
    requires Waiting(cfg, t) && t.phase == Receiving && Possible(t, Gave(bytes))
    requires var v := H.Finished(t.log.received + bytes, None); v.Says? && v.done
    ensures t.request.value.area == Buffered && Inside(cfg, t, t.request.value) && Entry(cfg, Land(cfg, t, Gave(bytes)))
    ensures var whole, r := t.log.received + bytes, Execute(cfg, Land(cfg, t, Gave(bytes)));
            && r.Return? && r.task.buffer.Valid() && r.task.buffer.Data() == whole
            && r.task.phase == (if S.GoodStatus(whole) then Finished else Aborted)
            && r.task.failureCode == (if S.GoodStatus(whole) then t.failureCode else t.failureCode + {HTTP})
            && r.task.failures == t.failures && r.task.connection.None? && r.task.log.returned == t.log.returned + 1
  {
    LandKeeps(cfg, t, Gave(bytes));
    var u := Land(cfg, t, Gave(bytes));
    EntryReady(cfg, u);
    CachedVerdict(t.log.received, bytes, t.info);
    S.FinishedStatus(t.log.received + bytes);
    var w := Counted(u, |bytes|);
    assert w.buffer.Data() == t.log.received + bytes;
    DeliveredAsSaid(cfg, w, H.Finished(t.log.received + bytes, t.info));
  }

  lemma DeliveredAsSaid(cfg: Config, t: Task, v: H.Verdict)
    requires t.buffer.Valid() && t.connection.Some? && v.Says? && v.done
    ensures var turn, good := Judged(cfg, t, v), R.CheckSuccess(v.info.response.code);
            && turn.Return? && turn.task.phase == (if good then Finished else Aborted)
            && turn.task.failureCode == (if good then t.failureCode else t.failureCode + {HTTP}) && turn.task.buffer == t.buffer
            && turn.task.failures == t.failures && turn.task.connection.None? && turn.task.log.returned == t.log.returned + 1
  {
  }

  /** The turn that looks at one piece. */
  lemma PieceJudged(cfg: Config, u: Task, received: string, bytes: string)
    requires Entry(cfg, u) && Ready(cfg, u) && u.phase == Receiving && u.request.value.length == |bytes| > 0
    requires u.log.received == received + bytes
    ensures var p, turn := F.Feed(F.Waiting(received, u.info), bytes), OneTurn(cfg, u);
            && (p.Failed? ==> turn.Again? && turn.task.failures > u.failures)
            && (p.Complete? ==> turn.Return? && turn.task.Over() && turn.task.response == Some(p.info)
                                && turn.task.buffer.Valid() && turn.task.buffer.Data() == p.data)
            && (p.Waiting? && !turn.Throw? && !turn.task.Over() ==>
                  turn.Return? && turn.task.phase == Receiving && Framing(turn.task) == p)
  {
    var w := Counted(u, |bytes|);
    assert w.buffer.Data() == received + bytes;
    JudgedAsSaid(cfg, w, H.Finished(received + bytes, u.info));
  }

  lemma JudgedAsSaid(cfg: Config, t: Task, v: H.Verdict)
    requires t.buffer.Valid() && t.phase == Receiving
    ensures var turn := Judged(cfg, t, v);
            && (v.Throws? ==> turn.Again? && turn.task.failures > t.failures)
            && (v.Says? && v.done ==> turn.Return? && turn.task.Over() && turn.task.response == Some(v.info)
                                      && turn.task.buffer == t.buffer)
            && (v.Says? && !v.done && !turn.Throw? && !turn.task.Over() ==>
                  turn.Return? && turn.task.phase == Receiving && turn.task.log == t.log && turn.task.info == Some(v.info))
  {
  }

  lemma {:induction false} FailuresGrow(cfg: Config, t: Task)
    requires Ready(cfg, t)
    ensures Execute(cfg, t).task.failures >= t.failures && t.failureCode <= Execute(cfg, t).task.failureCode
    decreases Left(t), Stage(t)
  {
    TurnGrows(cfg, t);
    if OneTurn(cfg, t).Again? {
      TurnDescends(cfg, t);
      FailuresGrow(cfg, OneTurn(cfg, t).task);
    }
  }

  lemma TurnGrows(cfg: Config, t: Task)
    requires Ready(cfg, t)
    ensures OneTurn(cfg, t).task.failures >= t.failures && t.failureCode <= OneTurn(cfg, t).task.failureCode
  {
    if t.phase == Init {
      ConnectGrows(cfg, t);
    } else if t.phase == Receiving {
      ReceiveGrows(cfg, t);
    }
  }

  lemma ConnectGrows(cfg: Config, t: Task)
    ensures Connect(cfg, t).task.failures >= t.failures && t.failureCode <= Connect(cfg, t).task.failureCode
  {
  }

  lemma ReceiveGrows(cfg: Config, t: Task)
    requires Ready(cfg, t) && t.phase == Receiving
    ensures AfterReceive(cfg, t).task.failures >= t.failures && t.failureCode <= AfterReceive(cfg, t).task.failureCode
  {
    var n := t.request.value.length;
    if n > 0 {
      var u := Counted(t, n);
      JudgedGrows(cfg, u, H.Finished(u.buffer.Data(), t.info));
    }
  }

  lemma JudgedGrows(cfg: Config, t: Task, v: H.Verdict)
    requires t.buffer.Valid()
    ensures Judged(cfg, t, v).task.failures >= t.failures && t.failureCode <= Judged(cfg, t, v).task.failureCode
  {
  }

  // ---------------------------------------------------------------------------------------------
  // Progress
  // ---------------------------------------------------------------------------------------------

  /** The bytes still to send, or the room still to fill. */
  function Bytes(cfg: Config, t: Task): int {
    if t.phase == Sending then |All(cfg, t)| - t.sendOffset
    else if t.phase == Receiving then |t.buffer.cells| - t.recvOffset
    else 0
  }

  /** Failures left, stage, bytes left. */
  ghost predicate Below(cfg: Config, u: Task, t: Task) {
    || Left(u) < Left(t)
    || (Left(u) == Left(t) && Stage(u) < Stage(t))
    || (Left(u) == Left(t) && Stage(u) == Stage(t) && 0 <= Bytes(cfg, u) < Bytes(cfg, t))
  }

  /** Memory of the caller stays what it is. */
  predicate SameMemory(t: Task, u: Task) {
    !t.buffer.Owned() ==> !u.buffer.Owned() && |u.buffer.cells| == |t.buffer.cells|
  }

  /** The kernel is not busy with the request at hand. */
  predicate Served(t: Task) {
    t.InFlight() && t.request.Some? ==> t.request.value.length != -EAGAIN && t.request.value.length != -EINPROGRESS
  }

  lemma TurnMemory(cfg: Config, t: Task)
    requires Ready(cfg, t)
    ensures SameMemory(t, OneTurn(cfg, t).task)
  {
    if t.phase == Init {
      ConnectMemory(cfg, t);
    } else if t.phase == Receiving {
      ReceiveMemory(cfg, t);
    }
  }

  lemma ConnectMemory(cfg: Config, t: Task)
    ensures SameMemory(t, Connect(cfg, t).task)
  {
  }

  lemma ReceiveMemory(cfg: Config, t: Task)
    requires Ready(cfg, t) && t.phase == Receiving
    ensures SameMemory(t, AfterReceive(cfg, t).task)
  {
    var n := t.request.value.length;
    if n > 0 {
      var u := Counted(t, n);
      JudgedMemory(cfg, u, H.Finished(u.buffer.Data(), t.info));
    } else {
      MoreMemory(cfg, t);
    }
  }

  lemma JudgedMemory(cfg: Config, t: Task, v: H.Verdict)
    requires t.buffer.Valid()
    ensures SameMemory(t, Judged(cfg, t, v).task)
  {
    if v.Says? && !v.done { MoreMemory(cfg, t.(info := Some(v.info))); }
  }

  lemma MoreMemory(cfg: Config, t: Task)
    requires t.buffer.Valid()
    ensures SameMemory(t, MoreBytes(cfg, t).task)
  {
  }

  /** A turn that ends `execute` has not gone back. */
  lemma ReturnStage(cfg: Config, t: Task)
    requires Entry(cfg, t) && Ready(cfg, t) && OneTurn(cfg, t).Return?
    ensures var u := OneTurn(cfg, t).task;
            u.Over() || (u.InFlight() && Left(u) == Left(t) && Stage(u) <= Stage(t) && (t.phase == Init ==> u.phase == Sending))
  {
    if t.phase == Receiving { ReceiveStage(cfg, t); }
  }

  lemma ReceiveStage(cfg: Config, t: Task)
    requires Ready(cfg, t) && t.phase == Receiving && AfterReceive(cfg, t).Return?
    ensures var u := AfterReceive(cfg, t).task;
            u.Over() || (u.phase == Receiving && u.failures == t.failures
                         && u.recvOffset == t.recvOffset + (if t.request.value.length > 0 then t.request.value.length else 0))
  {
  }

  /** One call of `execute` never goes back. */
  lemma {:induction false} ExecuteStage(cfg: Config, t: Task)
    requires Entry(cfg, t) && Ready(cfg, t) && Execute(cfg, t).Return?
    ensures var u := Execute(cfg, t).task;
            && SameMemory(t, u)
            && (u.Over() || Left(u) < Left(t) || (Left(u) == Left(t) && Stage(u) <= Stage(t)))
    decreases Left(t), Stage(t)
  {
    TurnMemory(cfg, t);
    if OneTurn(cfg, t).Again? {
      TurnKeeps(cfg, t);
      TurnDescends(cfg, t);
      ExecuteStage(cfg, OneTurn(cfg, t).task);
    } else {
      ReturnStage(cfg, t);
    }
  }

  /** With memory of the caller, one completion and the call of `execute` that follows go down in the order of failures
      left, stage and bytes left, unless the kernel was busy. */
  lemma ExecuteDescends(cfg: Config, t: Task)
    requires Entry(cfg, t) && Ready(cfg, t) && t.InFlight() && Served(t) && !t.buffer.Owned() && Execute(cfg, t).Return?
    ensures var u := Execute(cfg, t).task; u.Over() || (Below(cfg, u, t) && !u.buffer.Owned())
  {
    TurnMemory(cfg, t);
    if OneTurn(cfg, t).Again? {
      TurnKeeps(cfg, t);
      TurnDescends(cfg, t);
      ExecuteStage(cfg, OneTurn(cfg, t).task);
    } else {
      TurnKeeps(cfg, t);
      if t.phase == Sending { SendMoves(cfg, t); } else { ReceiveMoves(cfg, t); }
    }
  }

  lemma SendMoves(cfg: Config, t: Task)
    requires Entry(cfg, t) && Ready(cfg, t) && t.phase == Sending && Served(t) && AfterSend(cfg, t).Return?
    ensures Below(cfg, AfterSend(cfg, t).task, t)
  {
  }

  lemma ReceiveMoves(cfg: Config, t: Task)
    requires Entry(cfg, t) && Ready(cfg, t) && t.phase == Receiving && Served(t) && !t.buffer.Owned() && AfterReceive(cfg, t).Return?
    requires Waiting(cfg, AfterReceive(cfg, t).task)
    ensures var u := AfterReceive(cfg, t).task; u.Over() || Below(cfg, u, t)
  {
    ReceiveStage(cfg, t);
    ReceiveMemory(cfg, t);
  }

  /** `execute` throws exactly when a receive into memory of the caller was answered with "busy" and the window that
      is reserved a second time does not fit. */
  lemma ThrowsExactly(cfg: Config, t: Task, c: Completion)
    requires Waiting(cfg, t) && Possible(t, c)
    ensures Inside(cfg, t, t.request.value) && (t.phase == Sending <==> t.request.value.area != Buffered)
    ensures Entry(cfg, Land(cfg, t, c)) && Ready(cfg, Land(cfg, t, c))
    ensures Execute(cfg, Land(cfg, t, c)).Throw? <==>
              t.phase == Receiving && Busy(c) && !t.buffer.Owned()
              && t.buffer.size + (if |t.buffer.cells| - t.recvOffset < cfg.chunkSize then |t.buffer.cells| - t.recvOffset else cfg.chunkSize)
                 > |t.buffer.cells|
  {
    LandKeeps(cfg, t, c);
    var u := Land(cfg, t, c);
    Landed(cfg, t, c);
    EntryReady(cfg, u);
    ExecuteThrows(cfg, u);
  }

  /** What a completion leaves as it is. */
  lemma Landed(cfg: Config, t: Task, c: Completion)
    requires Waiting(cfg, t) && Possible(t, c)
    requires Inside(cfg, t, t.request.value) && (t.phase == Sending <==> t.request.value.area != Buffered)
    ensures var u := Land(cfg, t, c);
            && u.phase == t.phase && u.request.Some? && (Served(u) <==> !Busy(c)) && Left(u) == Left(t) && Stage(u) == Stage(t)
            && u.buffer.size == t.buffer.size && u.buffer.dataOwned == t.buffer.dataOwned
            && |u.buffer.cells| == |t.buffer.cells| && u.recvOffset == t.recvOffset && Bytes(cfg, u) == Bytes(cfg, t)
  {
  }

  lemma ExecuteThrows(cfg: Config, t: Task)
    requires Entry(cfg, t) && Ready(cfg, t) && t.InFlight()
    ensures Execute(cfg, t).Throw? <==>
              t.phase == Receiving && !Served(t) && !t.buffer.Owned()
              && t.buffer.size + (if |t.buffer.cells| - t.recvOffset < cfg.chunkSize then |t.buffer.cells| - t.recvOffset else cfg.chunkSize)
                 > |t.buffer.cells|
  {
    TurnKeeps(cfg, t);
    if t.phase == Receiving { ReceiveThrows(cfg, t); } else { QuietTurn(cfg, t); }
    if OneTurn(cfg, t).Again? {
      AgainIsNotInFlight(cfg, t);
      TurnDescends(cfg, t);
      QuietExecute(cfg, OneTurn(cfg, t).task);
    }
  }

  lemma AgainIsNotInFlight(cfg: Config, t: Task)
    requires Ready(cfg, t) && OneTurn(cfg, t).Again?
    ensures !OneTurn(cfg, t).task.InFlight()
  {
    TurnDescends(cfg, t);
    if t.phase == Receiving { ReceiveAgain(cfg, t); }
  }

  lemma ReceiveAgain(cfg: Config, t: Task)
    requires Ready(cfg, t) && t.phase == Receiving && AfterReceive(cfg, t).Again?
    ensures !AfterReceive(cfg, t).task.InFlight()
  {
  }

  lemma ReceiveThrows(cfg: Config, t: Task)
    requires Entry(cfg, t) && Ready(cfg, t) && t.phase == Receiving
    ensures AfterReceive(cfg, t).Throw? <==>
              !Served(t) && !t.buffer.Owned()
              && t.buffer.size + (if |t.buffer.cells| - t.recvOffset < cfg.chunkSize then |t.buffer.cells| - t.recvOffset else cfg.chunkSize)
                 > |t.buffer.cells|
  {
  }

  lemma QuietTurn(cfg: Config, t: Task)
    requires Entry(cfg, t) && Ready(cfg, t) && t.phase != Receiving
    ensures !OneTurn(cfg, t).Throw?
    ensures OneTurn(cfg, t).Again? ==> !OneTurn(cfg, t).task.InFlight()
  {
  }

  /** Away from a receive no exception leaves the loop. */
  lemma {:induction false} QuietExecute(cfg: Config, t: Task)
    requires Entry(cfg, t) && Ready(cfg, t) && !t.InFlight()
    ensures !Execute(cfg, t).Throw?
    decreases Left(t), Stage(t)
  {
    TurnKeeps(cfg, t);
    QuietTurn(cfg, t);
    if OneTurn(cfg, t).Again? {
      TurnDescends(cfg, t);
      QuietExecute(cfg, OneTurn(cfg, t).task);
    }
  }

  /** The task with every request answered by `answer`, until it is over. */
  ghost function Driven(cfg: Config, t: Task, answer: Task -> Completion): (u: Task)
    requires Waiting(cfg, t) && (t.Over() || (t.InFlight() && !t.buffer.Owned()))
    requires forall w :: Waiting(cfg, w) && w.InFlight() ==> Possible(w, answer(w)) && !Busy(answer(w))
    ensures u.Over() && Waiting(cfg, u)
    decreases Left(t), Stage(t), Bytes(cfg, t)
  {
    if t.Over() then t
    else
      DrivenStep(cfg, t, answer(t));
      Driven(cfg, Execute(cfg, Land(cfg, t, answer(t))).task, answer)
  }

  /** One completion, not "busy", and the call of `execute` that follows. */
  lemma DrivenStep(cfg: Config, t: Task, c: Completion)
    requires Waiting(cfg, t) && t.InFlight() && !t.buffer.Owned() && Possible(t, c) && !Busy(c)
    ensures Inside(cfg, t, t.request.value) && (t.phase == Sending <==> t.request.value.area != Buffered)
    ensures Ready(cfg, Land(cfg, t, c))
    ensures var r := Execute(cfg, Land(cfg, t, c));
            && r.Return? && Waiting(cfg, r.task)
            && (r.task.Over() || (r.task.InFlight() && !r.task.buffer.Owned() && Below(cfg, r.task, t)))
  {
    ThrowsExactly(cfg, t, c);
    Landed(cfg, t, c);
    var w := Land(cfg, t, c);
    ExecuteKeeps(cfg, w);
    ExecuteDescends(cfg, w);
    ExecuteInFlight(cfg, w);
  }

  lemma {:induction false} ExecuteInFlight(cfg: Config, t: Task)
    requires Entry(cfg, t) && Ready(cfg, t) && Execute(cfg, t).Return?
    ensures Execute(cfg, t).task.Over() || Execute(cfg, t).task.InFlight()
    decreases Left(t), Stage(t)
  {
    TurnKeeps(cfg, t);
    if OneTurn(cfg, t).Again? {
      TurnDescends(cfg, t);
      ExecuteInFlight(cfg, OneTurn(cfg, t).task);
    } else {
      ReturnStage(cfg, t);
    }
  }

  /** When no connection can be had, the first call of `execute` gives up after six attempts. */
  lemma NeverConnected(cfg: Config, message: string, buffer: Buffer)
    requires buffer.Valid() && forall k: nat :: !cfg.connect(k).Up?
    ensures var r := RunOf(cfg, message, buffer, []);
            && r.Return? && r.task.phase == Aborted && r.task.failureCode == {Socket}
            && r.task.failures == r.task.log.tries == 6 && r.task.connection.None?
  {
    ExecuteKeeps(cfg, Start(message, buffer));
    ConnectionAttempts(cfg, Start(message, buffer));
  }

  lemma {:induction false} ConnectionAttempts(cfg: Config, t: Task)
    requires Entry(cfg, t) && Ready(cfg, t) && t.phase == Init && forall k: nat :: !cfg.connect(k).Up?
    requires t.failures == t.log.tries <= CONNECTION_FAILURES_MAX + 1 && t.failureCode <= {Socket}
    ensures var r := Execute(cfg, t);
            && r.Return? && r.task.phase == Aborted && r.task.failureCode == {Socket} && r.task.connection.None?
            && r.task.failures == r.task.log.tries == CONNECTION_FAILURES_MAX + 2
    decreases CONNECTION_FAILURES_MAX + 1 - t.failures
  {
    ConnectKeeps(cfg, t);
    TurnDescends(cfg, t);
    ConnectFails(cfg, t);
    var u := OneTurn(cfg, t).task;
    if u.phase == Init {
      ConnectionAttempts(cfg, u);
    }
  }

  lemma ConnectFails(cfg: Config, t: Task)
    requires Entry(cfg, t) && t.phase == Init && !cfg.connect(t.log.tries).Up? && t.failureCode <= {Socket}
    ensures var r := Connect(cfg, t);
            && r.Again? && r.task.failures == t.failures + 1 && r.task.log.tries == t.log.tries + 1
            && r.task.failureCode == {Socket} && r.task.connection.None?
            && r.task.phase == if t.failures > CONNECTION_FAILURES_MAX then Aborted else Init
  {
    assert t.failureCode + {Socket} == {Socket};
  }
}
