/** Runs of one task under any completions the kernel may report, and the invariant of every run. */
module HttpTaskRuns {
  import opened Options
  import opened DataVectors
  import opened HttpTask
  import H = HttpHelper
  import R = HttpResponse
  import F = HttpFraming

  // ---------------------------------------------------------------------------------------------
  // The kernel
  // ---------------------------------------------------------------------------------------------

  /** A send took some bytes, a receive gave some, or the request reports zero or a negative error code. */
  datatype Completion = Took(n: nat) | Gave(bytes: string) | Reported(code: int)

  /** At most what was asked for. */
  predicate Possible(t: Task, c: Completion) {
    t.InFlight() && t.request.Some? &&
    match c
    case Took(n) => t.phase == Sending && 0 < n <= t.request.value.length
    case Gave(bytes) => t.phase == Receiving && 0 < |bytes| <= t.request.value.length
    case Reported(code) => code <= 0
  }

  predicate Busy(c: Completion) {
    c == Reported(-EAGAIN) || c == Reported(-EINPROGRESS)
  }

  function All(cfg: Config, t: Task): string {
    t.message + cfg.put
  }

  /** A send window lies in the header or in the data to upload, a receive window in the buffer. */
  predicate Inside(cfg: Config, t: Task, r: Request) {
    && r.length >= 0
    && match r.area
       case Header => r.start + r.length <= |t.message|
       case Put => r.start + r.length <= |cfg.put|
       case Buffered => r.start + r.length <= |t.buffer.cells|
  }

  function SentBytes(cfg: Config, t: Task, r: Request, n: nat): string
    requires Inside(cfg, t, r) && r.area != Buffered && n <= r.length
  {
    if r.area == Header then t.message[r.start..r.start + n] else cfg.put[r.start..r.start + n]
  }

  /** The completion reaches the task: the length of the request is replaced. */
  function Land(cfg: Config, t: Task, c: Completion): Task
    requires Possible(t, c) && Inside(cfg, t, t.request.value)
    requires t.phase == Sending <==> t.request.value.area != Buffered
  {
    var r := t.request.value;
    match c
    case Took(n) =>
      t.(request := Some(r.(length := n)), log := t.log.(sent := t.log.sent + SentBytes(cfg, t, r, n)))
    case Gave(bytes) =>
      t.(request := Some(r.(length := |bytes|)), log := t.log.(received := t.log.received + bytes),
         buffer := t.buffer.(cells := Written(t.buffer.cells, r.start, bytes)))
    case Reported(code) => t.(request := Some(r.(length := code)))
  }

  // ---------------------------------------------------------------------------------------------
  // The invariant
  // ---------------------------------------------------------------------------------------------

  /** In every phase. */
  ghost predicate Always(t: Task) {
    && t.buffer.Valid()
    && t.failures <= FAILURES_MAX + 2 && (t.failures == FAILURES_MAX + 2 ==> t.phase == Aborted)
    && t.log.got == t.log.returned + (if t.connection.Some? then 1 else 0)
    && (t.failures > 0 ==> t.failureCode != {})
    && (t.phase == Aborted ==> t.failureCode != {})
    && (t.failures == 0 && t.phase != Aborted ==> t.failureCode <= {Send})
    && t.phase != InitSending
  }

  /** Everything was sent, or the failure to send is recorded. */
  predicate SentOrFailed(cfg: Config, t: Task) {
    (t.log.sent == All(cfg, t) && t.sendOffset == |All(cfg, t)|) || Send in t.failureCode
  }

  /** The cached header belongs to the bytes received. */
  ghost predicate InfoFits(t: Task) {
    if t.log.received == "" then t.info.None? else t.info.Some? && H.Finished(t.log.received, None) == H.Says(false, t.info.value)
  }

  /** A task with a connection and a request on it. */
  predicate OnConnection(t: Task) {
    t.connection.Some? && t.request.Some? && t.request.value.fd == t.connection.value
  }

  ghost predicate Beginning(t: Task) {
    t.connection.None? && t.sendOffset == 0 && t.recvOffset == 0 && t.info.None?
  }

  /** While sending, with `n` more bytes taken than counted. */
  ghost predicate SendingFrom(cfg: Config, t: Task, n: nat) {
    && OnConnection(t) && t.info.None? && t.log.received == "" && t.request.value.area != Buffered
    && t.sendOffset + n <= |All(cfg, t)| && t.log.sent == All(cfg, t)[..t.sendOffset + n]
  }

  ghost predicate ReceivingNothing(cfg: Config, t: Task) {
    && OnConnection(t) && t.info.None? && t.log.received == "" && t.recvOffset == 0 && t.buffer.size == 0
    && SentOrFailed(cfg, t)
  }

  /** While receiving; `t.log.received` is what was received before the request at hand. */
  ghost predicate ReceivingFrom(cfg: Config, t: Task) {
    && OnConnection(t) && SentOrFailed(cfg, t) && InfoFits(t)
    && t.recvOffset <= |t.buffer.cells| && t.log.received == t.buffer.cells[..t.recvOffset]
    && t.request.value.area == Buffered && t.request.value.start == t.recvOffset <= t.buffer.size
    && (!t.buffer.Owned() ==> t.recvOffset < |t.buffer.cells|)
  }

  /** The result is complete, and a success. */
  ghost predicate Received(t: Task) {
    && t.buffer.Valid() && t.connection.None? && t.response.Some? && t.recvOffset == t.buffer.size && t.log.received == t.buffer.Data()
    && var v := H.Finished(t.log.received, None);
       && v.Says? && v.done && v.info.response == t.response.value.response && v.info.length == t.response.value.length
       && R.CheckSuccess(v.info.response.code)
  }

  /** Memory of the caller is full of a response that is not complete. */
  predicate Full(t: Task) {
    !t.buffer.Owned() && |t.buffer.cells| <= t.recvOffset && t.info.Some?
  }

  /** Between two calls of `execute`: before the first, with a request in flight, or over. */
  ghost predicate Waiting(cfg: Config, t: Task) {
    && Always(t)
    && (t.phase == Init ==> Beginning(t))
    && t.phase != InitReceiving
    && (t.phase == Sending ==> SendingFrom(cfg, t, 0) && t.request.value == Window(cfg, t, t.connection.value))
    && (t.phase == Receiving ==> ReceivingFrom(cfg, t) && Inside(cfg, t, t.request.value))
    && (t.phase == Finished ==> Received(t) && SentOrFailed(cfg, t))
    && (t.phase == Aborted ==> (t.connection.Some? <==> Full(t)))
  }

  /** At the head of the loop of `execute`; a completion is in the request. */
  ghost predicate Entry(cfg: Config, t: Task) {
    && Always(t)
    && (t.phase == Init ==> Beginning(t))
    && (t.phase == Sending ==> SendingFrom(cfg, t, if t.request.Some? && t.request.value.length > 0 then t.request.value.length else 0))
    && (t.phase == InitReceiving ==> ReceivingNothing(cfg, t))
    && (t.phase == Receiving ==> t.request.Some? && ReceivingEntry(cfg, t))
    && (t.phase == Finished ==> Received(t) && SentOrFailed(cfg, t))
    && (t.phase == Aborted ==> (t.connection.Some? <==> Full(t)))
  }

  /** With what was received before the last completion taken apart from what that completion brought. */
  ghost predicate ReceivingEntry(cfg: Config, t: Task)
    requires t.request.Some?
  {
    var n := if t.request.value.length > 0 then t.request.value.length else 0;
    && t.recvOffset + n <= |t.buffer.cells| && t.log.received == t.buffer.cells[..t.recvOffset + n]
    && ReceivingFrom(cfg, Before(t))
  }

  /** The task as if the last completion had brought nothing. */
  ghost function Before(t: Task): Task {
    if t.recvOffset <= |t.log.received| then t.(log := t.log.(received := t.log.received[..t.recvOffset])) else t
  }

  // ---------------------------------------------------------------------------------------------
  // Completions
  // ---------------------------------------------------------------------------------------------

  /** A send window is never empty-handed between header and upload: it lies in one of them, at the send offset. */
  lemma WindowInside(cfg: Config, t: Task, fd: int)
    requires t.sendOffset <= |All(cfg, t)|
    ensures var r := Window(cfg, t, fd);
            && r.area != Buffered && Inside(cfg, t, r)
            && forall n: nat :: n <= r.length ==>
                 t.sendOffset + n <= |All(cfg, t)| && SentBytes(cfg, t, r, n) == All(cfg, t)[t.sendOffset..t.sendOffset + n]
  {
  }

  lemma LandSend(cfg: Config, t: Task, c: Completion)
    requires Waiting(cfg, t) && t.phase == Sending && Possible(t, c)
    ensures t.request.value.area != Buffered && Inside(cfg, t, t.request.value)
    ensures Entry(cfg, Land(cfg, t, c))
  {
    WindowInside(cfg, t, t.connection.value);
    if c.Took? {
      var all := All(cfg, t);
      assert all[..t.sendOffset] + all[t.sendOffset..t.sendOffset + c.n] == all[..t.sendOffset + c.n];
      assert SentBytes(cfg, t, t.request.value, c.n) == all[t.sendOffset..t.sendOffset + c.n];
    }
  }

  lemma LandReceive(cfg: Config, t: Task, c: Completion)
    requires Waiting(cfg, t) && t.phase == Receiving && Possible(t, c)
    ensures Entry(cfg, Land(cfg, t, c)) && Before(Land(cfg, t, c)).log == t.log
  {
    var u := Land(cfg, t, c);
    if c.Gave? {
      var n := |c.bytes|;
      assert u.buffer.cells[..t.recvOffset] == t.buffer.cells[..t.recvOffset];
      assert u.buffer.cells[..t.recvOffset + n] == t.buffer.cells[..t.recvOffset] + c.bytes;
    }
    assert u.log.received[..t.recvOffset] == t.log.received;
  }

  lemma LandKeeps(cfg: Config, t: Task, c: Completion)
    requires Waiting(cfg, t) && Possible(t, c)
    ensures Inside(cfg, t, t.request.value) && (t.phase == Sending <==> t.request.value.area != Buffered)
    ensures Entry(cfg, Land(cfg, t, c))
  {
    if t.phase == Sending { LandSend(cfg, t, c); } else { LandReceive(cfg, t, c); }
  }

  // ---------------------------------------------------------------------------------------------
  // Turns
  // ---------------------------------------------------------------------------------------------

  lemma EntryReady(cfg: Config, t: Task)
    requires Entry(cfg, t)
    ensures Ready(cfg, t)
  {
  }

  /** What a turn may lead to. */
  ghost predicate Kept(cfg: Config, turn: Turn) {
    match turn case Again(u) => Entry(cfg, u) case Return(u) => Waiting(cfg, u) case Throw(u) => Always(u)
  }

  lemma FailKeeps(cfg: Config, t: Task, failure: Failure, limit: nat)
    requires Always(t) && !t.Over() && limit <= FAILURES_MAX && !Full(t)
    ensures Entry(cfg, Fail(cfg, t, failure, limit).task)
  {
    assert failure in t.failureCode + {failure};
    if t.failures > limit { FailAborts(cfg, t, failure, limit); } else { FailRestarts(cfg, t, failure, limit); }
  }

  lemma FailAborts(cfg: Config, t: Task, failure: Failure, limit: nat)
    requires Always(t) && t.failures > limit
    ensures var u := Fail(cfg, t, failure, limit).task;
            && u.phase == Aborted && u.failures == t.failures + 1 && u.failureCode == t.failureCode + {failure}
            && u.connection.None? && u.log.got == u.log.returned && u.buffer == t.buffer
            && u.info == t.info && u.recvOffset == t.recvOffset
  {
  }

  lemma FailRestarts(cfg: Config, t: Task, failure: Failure, limit: nat)
    requires Always(t) && t.failures <= limit
    ensures var u := Fail(cfg, t, failure, limit).task;
            && u.phase == Init && u.failures == t.failures + 1 && u.failureCode == t.failureCode + {failure}
            && u.connection.None? && u.log.got == u.log.returned && u.buffer == t.buffer.(size := 0)
            && u.info.None? && u.recvOffset == 0 && u.sendOffset == 0
  {
  }

  lemma ArmSendKeeps(cfg: Config, t: Task, fd: nat)
    requires Always(t) && !t.Over() && t.connection == Some(fd) && t.info.None? && t.log.received == ""
    requires t.sendOffset <= |All(cfg, t)| && t.log.sent == All(cfg, t)[..t.sendOffset]
    ensures Kept(cfg, ArmSend(cfg, t, fd))
  {
  }

  lemma ConnectKeeps(cfg: Config, t: Task)
    requires Entry(cfg, t) && t.phase == Init
    ensures Kept(cfg, Connect(cfg, t))
  {
    var link := cfg.connect(t.log.tries);
    var asked := Asked(t, link);
    AskedKeeps(t, link);
    if link.Up? {
      ArmSendKeeps(cfg, asked.(sendOffset := 0, log := asked.log.(sent := "", received := "")), link.fd);
    } else {
      FailKeeps(cfg, asked.(request := Unused(t.request)), Socket, CONNECTION_FAILURES_MAX);
    }
  }

  lemma AskedKeeps(t: Task, link: Link)
    requires Always(t) && t.connection.None?
    ensures var u := Asked(t, link); Always(u) && (link.Up? ==> u.connection == Some(link.fd)) && u == t.(log := u.log, connection := u.connection)
  {
  }

  lemma AfterSendKeeps(cfg: Config, t: Task)
    requires Entry(cfg, t) && t.phase == Sending
    ensures Ready(cfg, t) && Kept(cfg, AfterSend(cfg, t))
  {
    var n := t.request.value.length;
    if n > 0 {
      SentKeeps(cfg, t.(sendOffset := t.sendOffset + n), t.connection.value);
    } else if n == -EINPROGRESS || n == -EAGAIN {
      SentKeeps(cfg, t, t.connection.value);
    } else if n == -ECANCELED || n == -EINTR {
      FailKeeps(cfg, t, Timeout, FAILURES_MAX);
    } else {
      SendRecorded(cfg, t);
    }
  }

  /** All is sent, or the next window follows. */
  lemma SentKeeps(cfg: Config, t: Task, fd: nat)
    requires Always(t) && t.phase == Sending && t.info.None? && t.log.received == ""
    requires OnConnection(t) && t.connection == Some(fd)
    requires t.sendOffset <= |All(cfg, t)| && t.log.sent == All(cfg, t)[..t.sendOffset]
    ensures Kept(cfg, if t.sendOffset >= |All(cfg, t)| then BeginReceiving(t) else ArmSend(cfg, t, fd))
  {
    if t.sendOffset >= |All(cfg, t)| {
      assert All(cfg, t)[..t.sendOffset] == All(cfg, t);
    } else {
      ArmSendKeeps(cfg, t, fd);
    }
  }

  lemma SendRecorded(cfg: Config, t: Task)
    requires Always(t) && t.phase == Sending && t.info.None? && t.log.received == "" && OnConnection(t)
    ensures Kept(cfg, BeginReceiving(t.(failureCode := t.failureCode + {Send})))
  {
    assert Send in t.failureCode + {Send};
  }

  /** Before asking for bytes, in `InitReceiving` or with earlier bytes judged. */
  ghost predicate CanReceive(cfg: Config, t: Task) {
    && Always(t) && !t.Over() && t.connection.Some? && SentOrFailed(cfg, t) && InfoFits(t)
    && t.recvOffset <= t.buffer.size && t.log.received == t.buffer.cells[..t.recvOffset]
  }

  lemma ArmReceiveKeeps(cfg: Config, t: Task, fd: int)
    requires CanReceive(cfg, t)
    ensures Kept(cfg, ArmReceive(cfg, t, fd))
  {
    var b := t.buffer;
    if !b.Owned() && |b.cells| <= t.recvOffset {
      assert t.log.received != "";
      RecvRecorded(t);
    } else {
      WindowKeeps(cfg, t, if !b.Owned() && |b.cells| - t.recvOffset < cfg.chunkSize then |b.cells| - t.recvOffset else cfg.chunkSize, fd);
    }
  }

  lemma WindowKeeps(cfg: Config, t: Task, n: nat, fd: int)
    requires CanReceive(cfg, t) && (t.buffer.Owned() || t.recvOffset + n <= |t.buffer.cells|)
    requires !t.buffer.Owned() ==> t.recvOffset < |t.buffer.cells|
    ensures Kept(cfg, WindowTurn(t, n, fd))
  {
    WindowTurnIs(t, n, fd);
    if Resized(t.buffer, t.buffer.size + n).Some? {
      LargerBuffer(t.buffer, t.buffer.size + n, t.recvOffset);
      WindowOpen(cfg, t, Resized(t.buffer, t.buffer.size + n).value, n, t.connection.value);
    }
  }

  function WindowTask(t: Task, larger: Buffer, n: nat, fd: int): Task {
    t.(phase := Receiving, buffer := larger, request := Some(Request(Buffered, t.recvOffset, n, fd)))
  }

  lemma WindowTurnIs(t: Task, n: nat, fd: int)
    requires t.buffer.Valid() && t.connection.Some?
    ensures var larger := Resized(t.buffer, t.buffer.size + n);
            WindowTurn(t, n, fd) == if larger.None? then Throw(t) else Return(WindowTask(t, larger.value, n, t.connection.value))
  {
  }

  lemma LargerBuffer(b: Buffer, n: nat, keep: nat)
    requires b.Valid() && keep <= b.size <= n && Resized(b, n).Some?
    ensures var larger := Resized(b, n).value;
            larger.cells[..keep] == b.cells[..keep] && (!larger.Owned() ==> !b.Owned() && |larger.cells| == |b.cells|)
  {
  }

  /** The request for `n` more bytes, with memory for them. */
  lemma WindowOpen(cfg: Config, t: Task, larger: Buffer, n: nat, fd: int)
    requires CanReceive(cfg, t) && t.connection == Some(fd)
    requires larger.Valid() && larger.size == t.buffer.size + n && larger.cells[..t.recvOffset] == t.buffer.cells[..t.recvOffset]
    requires !larger.Owned() ==> t.recvOffset < |larger.cells|
    ensures Waiting(cfg, WindowTask(t, larger, n, fd))
  {
  }

  lemma RecvRecorded(t: Task)
    requires Always(t) && !t.Over() && t.connection.Some?
    ensures var u := t.(phase := Aborted, failureCode := t.failureCode + {Recv}); Always(u) && u.connection.Some?
  {
    assert Recv in t.failureCode + {Recv};
  }

  lemma MoreBytesKeeps(cfg: Config, t: Task)
    requires CanReceive(cfg, t)
    ensures Kept(cfg, MoreBytes(cfg, t))
  {
    var b := Prepared(cfg, t.buffer, t.info).value;
    assert b.cells[..t.recvOffset] == b.Data()[..t.recvOffset] == t.buffer.Data()[..t.recvOffset] == t.buffer.cells[..t.recvOffset];
    ArmReceiveKeeps(cfg, t.(buffer := b), -1);
  }

  /** The verdict with the cached header is the verdict on all bytes of the attempt. */
  lemma CachedVerdict(received: string, bytes: string, info: Option<H.Info>)
    requires if received == "" then info.None? else info.Some? && H.Finished(received, None) == H.Says(false, info.value)
    ensures var cached, again := H.Finished(received + bytes, info), H.Finished(received + bytes, None);
            && cached.Throws? == again.Throws?
            && (cached.Says? ==> cached.done == again.done && cached.info.response == again.info.response
                                 && cached.info.length == again.info.length && (!cached.done ==> cached == again))
            && (cached.Throws? ==> info.None?)
  {
    if received != "" {
      F.FinishedStable(received, bytes);
    }
  }

  lemma AfterBytesKeeps(cfg: Config, t: Task)
    requires Entry(cfg, t) && t.phase == Receiving && t.request.value.length > 0
    ensures Kept(cfg, AfterBytes(cfg, t, t.request.value.length))
  {
    var n := t.request.value.length;
    var u := Counted(t, n);
    var before, bytes := t.log.received[..t.recvOffset], t.log.received[t.recvOffset..];
    assert u.buffer.Data() == t.log.received == before + bytes;
    CachedVerdict(before, bytes, t.info);
    JudgedKeeps(cfg, u, H.Finished(u.buffer.Data(), t.info));
  }

  lemma JudgedKeeps(cfg: Config, t: Task, v: H.Verdict)
    requires Always(t) && t.phase == Receiving && SentOrFailed(cfg, t) && t.connection.Some?
    requires t.recvOffset == t.buffer.size && t.log.received == t.buffer.Data() != ""
    requires var again := H.Finished(t.log.received, None);
             v.Says? ==> again.Says? && v.done == again.done && v.info.response == again.info.response
                         && v.info.length == again.info.length && (!v.done ==> v == again)
    requires v.Throws? ==> t.info.None?
    ensures Kept(cfg, Judged(cfg, t, v))
  {
    match v
    case Throws => FailKeeps(cfg, t, HTTP, FAILURES_MAX);
    case Says(false, info) => MoreBytesKeeps(cfg, t.(info := Some(info)));
    case Says(true, info) => CompleteKeeps(cfg, t, info);
  }

  /** The end of `AfterBytes` for a complete response. */
  lemma CompleteKeeps(cfg: Config, t: Task, info: H.Info)
    requires Always(t) && t.phase == Receiving && SentOrFailed(cfg, t) && t.connection.Some?
    requires t.recvOffset == t.buffer.size && t.log.received == t.buffer.Data()
    requires var v := H.Finished(t.log.received, None);
             v.Says? && v.done && v.info.response == info.response && v.info.length == info.length
    ensures Waiting(cfg, Delivered(t, info))
  {
    assert HTTP in t.failureCode + {HTTP};
  }

  lemma AfterReceiveKeeps(cfg: Config, t: Task)
    requires Entry(cfg, t) && t.phase == Receiving
    ensures Ready(cfg, t) && Kept(cfg, AfterReceive(cfg, t))
  {
    var n := t.request.value.length;
    if n == 0 {
      FailKeeps(cfg, t, Empty, FAILURES_MAX);
    } else if n > 0 {
      AfterBytesKeeps(cfg, t);
    } else if n == -EINPROGRESS || n == -EAGAIN {
      assert t.log.received[..t.recvOffset] == t.log.received;
      MoreBytesKeeps(cfg, t);
    } else {
      FailKeeps(cfg, t, if n == -ECANCELED || n == -EINTR then Timeout else Recv, FAILURES_MAX);
    }
  }

  lemma TurnKeeps(cfg: Config, t: Task)
    requires Entry(cfg, t)
    ensures Ready(cfg, t) && Kept(cfg, OneTurn(cfg, t))
  {
    EntryReady(cfg, t);
    match t.phase
    case Init => ConnectKeeps(cfg, t);
    case Sending => AfterSendKeeps(cfg, t);
    case InitReceiving =>
      assert t.buffer.cells[..0] == "";
      ArmReceiveKeeps(cfg, t, t.request.value.fd);
    case Receiving => AfterReceiveKeeps(cfg, t);
    case _ =>
  }

  /** One call of `execute`. */
  lemma {:induction false} ExecuteKeeps(cfg: Config, t: Task)
    requires Entry(cfg, t)
    ensures Ready(cfg, t) && Kept(cfg, Execute(cfg, t))
    decreases Left(t), Stage(t)
  {
    TurnKeeps(cfg, t);
    if OneTurn(cfg, t).Again? {
      TurnDescends(cfg, t);
      ExecuteKeeps(cfg, OneTurn(cfg, t).task);
    }
  }
}
