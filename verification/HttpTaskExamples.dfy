/** Runs of a task that end otherwise than one would expect: src/network/http_message.cpp. */
module HttpTaskExamples {
  import opened Options
  import opened DataVectors
  import opened HttpTask
  import opened HttpTaskRuns
  import opened HttpTaskTheorems
  import H = HttpHelper
  import R = HttpResponse
  import T = Texts
  import F = HttpFraming
  import X = HttpFramingExamples

  // ---------------------------------------------------------------------------------------------
  // A response without content
  // ---------------------------------------------------------------------------------------------

  const NO_CONTENT_LINE := "HTTP/1.1 204 No Content"
  const NO_CONTENT := NO_CONTENT_LINE + R.CRLF + R.CRLF

  lemma CodeIsNoContent(text: string)
    requires text == "204 No Content"
    ensures R.CodeOf(text) == R.NO_CONTENT_204
  {
    assert R.Names(text, 2) by { assert text[0..14] == text; }
    forall j: nat | 2 < j < |R.KNOWN_CODES|
      ensures !R.Names(text, j)
    {
      OtherCode(text, j);
    }
    R.LastIsUnique(R.NameTest(text), |R.KNOWN_CODES|, 2);
  }

  /** Two different known codes differ in their first three characters, the two codes 503 apart. */
  lemma OtherCode(text: string, j: nat)
    requires |text| >= 3 && text[0] == '2' && text[2] == '4' && 2 < j < |R.KNOWN_CODES|
    ensures !R.Names(text, j)
  {
    var code := R.CodeText(R.KNOWN_CODES[j]);
    assert |code| >= 3 && (code[0] != '2' || code[2] != '4');
  }

  lemma NoContentStatus()
    ensures F.OneLineText(NO_CONTENT_LINE) && NO_CONTENT_LINE != ""
    ensures R.StatusLine(NO_CONTENT_LINE).Some? && R.StatusLine(NO_CONTENT_LINE).value.code == R.NO_CONTENT_204
  {
    NoContentText(NO_CONTENT_LINE);
    CodeIsNoContent(NO_CONTENT_LINE[9..]);
  }

  lemma NoContentText(line: string)
    requires line == "HTTP/1.1 204 No Content"
    ensures F.OneLineText(line) && R.StatusLine(line).Some? && |line| > 9 && line[9..] == "204 No Content"
  {
    assert T.StartsWith(line, "HTTP/1.1") by { assert line[0..8] == "HTTP/1.1"; }
  }

  lemma StatusOnly(line: string)
    requires F.OneLineText(line) && line != "" && R.StatusLine(line).Some?
    requires R.StatusLine(line).value.code == R.NO_CONTENT_204
    ensures var v := H.Finished(line + R.CRLF + R.CRLF, None);
            v.Says? && v.done && R.CheckSuccess(v.info.response.code)
  {
    X.LineRead(line, R.CRLF, None);
    X.BlankRead(R.StatusLine(line).value);
  }

  lemma NoContentFinished()
    ensures var v := H.Finished(NO_CONTENT, None);
            v.Says? && v.done && R.CheckSuccess(v.info.response.code)
  {
    NoContentStatus();
    StatusOnly(NO_CONTENT_LINE);
  }

  // ---------------------------------------------------------------------------------------------
  // Steps
  // ---------------------------------------------------------------------------------------------

  /** A task that has a connection and is about to send its message, with nothing to upload. */
  ghost predicate AboutToSend(cfg: Config, t: Task, n: nat) {
    && Waiting(cfg, t) && t.phase == Sending && cfg.put == "" && t.sendOffset == 0 && |t.message| == n > 0
  }

  /** The whole message is taken at once. */
  lemma Sent(cfg: Config, t: Task, n: nat)
    requires AboutToSend(cfg, t, n) && (t.buffer.Owned() || |t.buffer.cells| > 0) && cfg.chunkSize > 0
    ensures Possible(t, Took(n)) && Inside(cfg, t, t.request.value) && t.request.value.area != Buffered
    ensures Entry(cfg, Land(cfg, t, Took(n))) && Ready(cfg, Land(cfg, t, Took(n)))
    ensures var r := Execute(cfg, Land(cfg, t, Took(n)));
            && r.Return? && Waiting(cfg, r.task) && r.task.phase == Receiving && r.task.recvOffset == 0
            && r.task.log.received == "" && r.task.info.None?
            && r.task.failures == t.failures && r.task.failureCode == t.failureCode
            && (t.buffer.Owned() ==> r.task.request.value.length == cfg.chunkSize)
            && SameMemory(t, r.task)
            && (!t.buffer.Owned() ==> r.task.buffer.size == r.task.request.value.length
                                      == if |t.buffer.cells| < cfg.chunkSize then |t.buffer.cells| else cfg.chunkSize)
  {
    WindowInside(cfg, t, t.connection.value);
    LandKeeps(cfg, t, Took(n));
    var u := Land(cfg, t, Took(n));
    ExecuteKeeps(cfg, u);
    EntryReady(cfg, u);
  }

  /** The first call of `execute` when a connection is there at once. */
  lemma ConnectsAtOnce(cfg: Config, t: Task)
    requires Entry(cfg, t) && t.phase == Init && cfg.put == "" && t.message != "" && cfg.connect(t.log.tries).Up?
    ensures Ready(cfg, t)
    ensures var r := Execute(cfg, t);
            && r.Return? && AboutToSend(cfg, r.task, |t.message|) && r.task.buffer == t.buffer
            && r.task.failures == t.failures && r.task.failureCode == t.failureCode
  {
    ExecuteKeeps(cfg, t);
    assert OneTurn(cfg, t) == Connect(cfg, t) && Connect(cfg, t).Return?;
  }

  /** The first call of `execute` when the pool refuses once. */
  lemma ConnectsLater(cfg: Config, message: string, buffer: Buffer)
    requires buffer.Valid() && cfg.put == "" && message != "" && !cfg.resigns
    requires cfg.connect(0).Refused? && cfg.connect(1).Up?
    ensures var t := Start(message, buffer); Ready(cfg, t)
    ensures var r := Execute(cfg, Start(message, buffer));
            && r.Return? && AboutToSend(cfg, r.task, |message|) && r.task.buffer == buffer.(size := 0)
            && r.task.failures == 1 && r.task.failureCode == {Failure.Socket}
  {
    var t := Start(message, buffer);
    TurnKeeps(cfg, t);
    var u := OneTurn(cfg, t).task;
    assert OneTurn(cfg, t) == Again(u) && u.log.tries == 1 && u.message == message && u.phase == Init;
    assert u.failureCode == {} + {Failure.Socket} == {Failure.Socket};
    ConnectsAtOnce(cfg, u);
  }

  lemma RunTwo(cfg: Config, t: Task, u: Task, c: Completion, d: Completion)
    requires Waiting(cfg, t) && Possible(t, c) && Waiting(cfg, u) && Possible(u, d)
    requires Inside(cfg, t, t.request.value) && (t.phase == Sending <==> t.request.value.area != Buffered)
    requires Ready(cfg, Land(cfg, t, c)) && Execute(cfg, Land(cfg, t, c)) == Return(u)
    ensures Inside(cfg, u, u.request.value) && (u.phase == Sending <==> u.request.value.area != Buffered)
    ensures Ready(cfg, Land(cfg, u, d))
    ensures Run(cfg, Return(t), [c, d]) == Execute(cfg, Land(cfg, u, d))
  {
    RunOne(cfg, t, c, [d]);
    RunOne(cfg, u, d, []);
    assert [c] + [d] == [c, d] && [d] + [] == [d];
  }

  // ---------------------------------------------------------------------------------------------
  // A retry
  // ---------------------------------------------------------------------------------------------

  /** The whole response arrives at once. */
  lemma ResponseArrives(cfg: Config, t: Task)
    requires Waiting(cfg, t) && t.phase == Receiving && t.recvOffset == 0 && t.log.received == "" && t.info.None?
    requires t.request.value.length >= |NO_CONTENT|
    ensures Possible(t, Gave(NO_CONTENT)) && Inside(cfg, t, t.request.value) && t.request.value.area == Buffered
    ensures Ready(cfg, Land(cfg, t, Gave(NO_CONTENT)))
    ensures var r := Execute(cfg, Land(cfg, t, Gave(NO_CONTENT)));
            r.Return? && r.task.phase == Finished && r.task.failures == t.failures && r.task.failureCode == t.failureCode
  {
    assert |NO_CONTENT| == |NO_CONTENT_LINE| + 4;
    LandKeeps(cfg, t, Gave(NO_CONTENT));
    var u := Land(cfg, t, Gave(NO_CONTENT));
    EntryReady(cfg, u);
    var w := Counted(u, |NO_CONTENT|);
    assert w.buffer.Data() == NO_CONTENT;
    NoContentFinished();
    var v := H.Finished(NO_CONTENT, None);
    assert OneTurn(cfg, u) == Judged(cfg, w, v) == Return(Delivered(w, v.info));
  }

  /** A task that is refused a connection once gets its response, and is not a success. */
  lemma RetryIsNoSuccess(cfg: Config, message: string)
    requires cfg.put == "" && message != "" && !cfg.resigns && cfg.chunkSize >= |NO_CONTENT|
    requires cfg.connect(0).Refused? && cfg.connect(1).Up?
    ensures var r := RunOf(cfg, message, Buffer(true, "", 0), [Took(|message|), Gave(NO_CONTENT)]);
            r.Return? && r.task.phase == Finished && r.task.failures == 1 && !Success(r.task)
  {
    var buffer, n := Buffer(true, "", 0), |message|;
    ConnectsLater(cfg, message, buffer);
    var t := Execute(cfg, Start(message, buffer)).task;
    Sent(cfg, t, n);
    var u := Execute(cfg, Land(cfg, t, Took(n))).task;
    ResponseArrives(cfg, u);
    RunTwo(cfg, t, u, Took(n), Gave(NO_CONTENT));
  }

  // ---------------------------------------------------------------------------------------------
  // An exception
  // ---------------------------------------------------------------------------------------------

  /** Memory of the caller for one byte, and a socket that is busy once. */
  lemma BusyThrows(cfg: Config, message: string)
    requires cfg.put == "" && message != "" && cfg.chunkSize > 0 && cfg.connect(0).Up?
    ensures RunOf(cfg, message, Buffer(false, "x", 0), [Took(|message|), Reported(-EAGAIN)]).Throw?
  {
    var buffer, n := Buffer(false, "x", 0), |message|;
    ConnectsAtOnce(cfg, Start(message, buffer));
    var t := Execute(cfg, Start(message, buffer)).task;
    Sent(cfg, t, n);
    var u := Execute(cfg, Land(cfg, t, Took(n))).task;
    ThrowsExactly(cfg, u, Reported(-EAGAIN));
    RunTwo(cfg, t, u, Took(n), Reported(-EAGAIN));
  }

  // ---------------------------------------------------------------------------------------------
  // A connection that is kept
  // ---------------------------------------------------------------------------------------------

  /** A piece fills the memory of the caller, and the response is not complete. */
  lemma FullArrives(cfg: Config, t: Task, h: string)
    requires Waiting(cfg, t) && t.phase == Receiving && t.recvOffset == 0 && t.log.received == "" && t.info.None?
    requires !t.buffer.Owned() && |t.buffer.cells| == |h| == t.request.value.length && |h| > 0
    requires var v := H.Finished(h, None); v.Says? && !v.done
    ensures Possible(t, Gave(h)) && Inside(cfg, t, t.request.value) && t.request.value.area == Buffered
    ensures Ready(cfg, Land(cfg, t, Gave(h)))
    ensures var r := Execute(cfg, Land(cfg, t, Gave(h)));
            r.Return? && r.task.phase == Aborted && r.task.connection == t.connection && Full(r.task)
  {
    LandKeeps(cfg, t, Gave(h));
    var u := Land(cfg, t, Gave(h));
    EntryReady(cfg, u);
    var w := Counted(u, |h|);
    assert w.buffer.Data() == h;
    assert OneTurn(cfg, u) == Judged(cfg, w, H.Finished(h, None));
  }

  /** Memory of the caller for the header only: the task gives up, and its connection never goes back to the pool. */
  lemma FullKeepsConnection(cfg: Config, message: string, h: string)
    requires cfg.put == "" && message != "" && cfg.chunkSize >= |h| > 0 && cfg.connect(0).Up?
    requires var v := H.Finished(h, None); v.Says? && !v.done
    ensures var r := RunOf(cfg, message, Buffer(false, h, 0), [Took(|message|), Gave(h)]);
            && r.Return? && r.task.phase == Aborted && Full(r.task)
            && r.task.connection.Some? && r.task.log.got == r.task.log.returned + 1
  {
    var buffer, n := Buffer(false, h, 0), |message|;
    ConnectsAtOnce(cfg, Start(message, buffer));
    var t := Execute(cfg, Start(message, buffer)).task;
    Sent(cfg, t, n);
    var u := Execute(cfg, Land(cfg, t, Took(n))).task;
    FullArrives(cfg, u, h);
    RunTwo(cfg, t, u, Took(n), Gave(h));
    ConnectionsGivenBack(cfg, message, buffer, [Took(n), Gave(h)]);
  }

  // ---------------------------------------------------------------------------------------------
  // Concrete runs
  // ---------------------------------------------------------------------------------------------

  /** All of this can happen: a message of one byte, a pool that refuses the first call or none, and memory for a header or for one byte. */
  lemma Examples()
    ensures var refusesOnce := Config(65536, "", false, s => s, k => if k == 0 then Refused else Up(3));
            var r := RunOf(refusesOnce, "m", Buffer(true, "", 0), [Took(1), Gave(NO_CONTENT)]);
            r.Return? && r.task.phase == Finished && !Success(r.task)
    ensures var gives := Config(65536, "", false, s => s, k => Up(3));
            && RunOf(gives, "m", Buffer(false, "x", 0), [Took(1), Reported(-EAGAIN)]).Throw?
            && var h := X.PlainHeader(); RunOf(gives, "m", Buffer(false, h, 0), [Took(1), Gave(h)]).task.connection.Some?
  {
    assert |NO_CONTENT| == |NO_CONTENT_LINE| + 4;
    RetryIsNoSuccess(Config(65536, "", false, s => s, k => if k == 0 then Refused else Up(3)), "m");
    BusyThrows(Config(65536, "", false, s => s, k => Up(3)), "m");
    X.HeadersDetected();
    X.HeadersEnd();
    X.HeaderAlone(X.PlainHeader());
    FullKeepsConnection(Config(65536, "", false, s => s, k => Up(3)), "m", X.PlainHeader());
  }
}
