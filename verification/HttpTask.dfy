/** One request and its response: the state machine of src/network/http_message.cpp on values.
    The kernel reports a completion by replacing the length of the request in flight. */
module HttpTask {
  import opened Options
  import opened Words
  import opened DataVectors
  import H = HttpHelper
  import R = HttpResponse

  const FAILURES_MAX := 32
  const CONNECTION_FAILURES_MAX := 4
  const EINTR := 4
  const EAGAIN := 11
  const EINPROGRESS := 115
  const ECANCELED := 125

  datatype Phase = Init | InitSending | Sending | InitReceiving | Receiving | Finished | Aborted

  datatype Failure = Socket | Empty | Timeout | Send | Recv | HTTP

  /** What asking the pool for a connection gives: an exception, a connection that is not connected, a connection. */
  datatype Link = Refused | Down(fd: nat) | Up(fd: nat)

  /** The message of one task; `connect(k)` is the answer to its call number `k` for a connection. */
  datatype Config = Config(chunkSize: nat, put: string, resigns: bool, resign: string -> string, connect: nat -> Link)

  /** Where the bytes of a request are: in the header, in the data to upload, or in the receive buffer. */
  datatype Area = Header | Put | Buffered

  /** `length` is what is asked for, then what the kernel reports. */
  datatype Request = Request(area: Area, start: nat, length: int, fd: int)

  /** What has happened outside the task: calls for a connection, connections handed out and given back, and for the
      current attempt the bytes the kernel took and the bytes it delivered. */
  datatype Log = Log(tries: nat, got: nat, returned: nat, sent: string, received: string)

  datatype Task = Task(phase: Phase, failureCode: set<Failure>, failures: nat, message: string, sendOffset: nat,
                       recvOffset: nat, info: Option<H.Info>, response: Option<H.Info>, buffer: Buffer,
                       connection: Option<nat>, request: Option<Request>, log: Log)
  {
    predicate Over() { phase == Finished || phase == Aborted }

    predicate InFlight() { phase == Sending || phase == Receiving }
  }

  function Start(message: string, buffer: Buffer): Task {
    Task(Init, {}, 0, message, 0, 0, None, None, buffer, None, None, Log(0, 0, 0, "", ""))
  }

  /** `MessageResult::success`. */
  predicate Success(t: Task) {
    t.phase == Finished && t.failureCode == {}
  }

  // ---------------------------------------------------------------------------------------------
  // One turn of the loop in `execute`
  // ---------------------------------------------------------------------------------------------

  /** After a turn the loop goes on, `execute` returns, or an exception leaves it. */
  datatype Turn = Again(task: Task) | Return(task: Task) | Throw(task: Task)

  function Unused(request: Option<Request>): Option<Request> {
    match request case None => None case Some(r) => Some(r.(fd := -1))
  }

  function GiveBack(t: Task): Task {
    if t.connection.None? then t else t.(connection := None, log := t.log.(returned := t.log.returned + 1))
  }

  /** Over, or all progress forgotten. */
  function Cleared(t: Task, aborted: bool): Task {
    if aborted then t.(phase := Aborted)
    else t.(phase := Init, buffer := t.buffer.(size := 0), recvOffset := 0, sendOffset := 0, info := None)
  }

  function Signed(cfg: Config, t: Task): string {
    if HTTP in t.failureCode && cfg.resigns then cfg.resign(t.message) else t.message
  }

  /** `reset`, with the failure counted by its caller. */
  function Reset(cfg: Config, t: Task, aborted: bool): Task {
    GiveBack(Cleared(t, aborted).(failures := t.failures + 1, message := Signed(cfg, t), request := Unused(t.request)))
  }

  function Fail(cfg: Config, t: Task, failure: Failure, limit: nat): Turn {
    Again(Reset(cfg, t.(failureCode := t.failureCode + {failure}), t.failures > limit))
  }

  /** The next bytes of header or data to upload: never of both. */
  function Window(cfg: Config, t: Task, fd: int): Request
    requires t.sendOffset <= |t.message| + |cfg.put|
  {
    if |cfg.put| > 0 && t.sendOffset >= |t.message| then
      Request(Put, t.sendOffset - |t.message|, |t.message| + |cfg.put| - t.sendOffset, fd)
    else
      Request(Header, t.sendOffset, |t.message| - t.sendOffset, fd)
  }

  function ArmSend(cfg: Config, t: Task, fd: int): Turn
    requires t.sendOffset <= |t.message| + |cfg.put|
  {
    Return(t.(phase := Sending, request := Some(Window(cfg, t, fd))))
  }

  /** The task with what the pool answered. */
  function Asked(t: Task, link: Link): Task {
    var asked := t.(log := t.log.(tries := t.log.tries + 1));
    match link
    case Refused => asked
    case Down(fd) => asked.(connection := Some(fd), log := asked.log.(got := t.log.got + 1))
    case Up(fd) => asked.(connection := Some(fd), log := asked.log.(got := t.log.got + 1))
  }

  function Connect(cfg: Config, t: Task): Turn {
    var link := cfg.connect(t.log.tries);
    var asked := Asked(t, link);
    if link.Up? then
      ArmSend(cfg, asked.(sendOffset := 0, log := asked.log.(sent := "", received := "")), link.fd)
    else
      Fail(cfg, asked.(request := Unused(t.request)), Socket, CONNECTION_FAILURES_MAX)
  }

  function BeginReceiving(t: Task): Turn {
    Again(t.(phase := InitReceiving, recvOffset := 0, buffer := t.buffer.(size := 0)))
  }

  function AfterSend(cfg: Config, t: Task): Turn
    requires t.request.Some? && (t.request.value.length > 0 ==> t.sendOffset + t.request.value.length <= |t.message| + |cfg.put|)
    requires t.sendOffset <= |t.message| + |cfg.put|
  {
    var n, fd := t.request.value.length, t.request.value.fd;
    if n <= 0 && n != -EINPROGRESS && n != -EAGAIN then
      if n == -ECANCELED || n == -EINTR then Fail(cfg, t, Timeout, FAILURES_MAX)
      else BeginReceiving(t.(failureCode := t.failureCode + {Send}))
    else
      var u := if n > 0 then t.(sendOffset := t.sendOffset + n) else t;
      if u.sendOffset >= |u.message| + |cfg.put| then BeginReceiving(u) else ArmSend(cfg, u, fd)
  }

  /** Asks for more bytes, behind those already received. */
  function ArmReceive(cfg: Config, t: Task, fd: int): Turn
    requires t.buffer.Valid()
  {
    var b := t.buffer;
    if !b.Owned() && |b.cells| <= t.recvOffset then
      Return(t.(phase := Aborted, failureCode := t.failureCode + {Recv}))
    else
      var n := if !b.Owned() && |b.cells| - t.recvOffset < cfg.chunkSize then |b.cells| - t.recvOffset else cfg.chunkSize;
      WindowTurn(t, n, fd)
  }

  /** Room for `n` more bytes, and a request for them; an exception when they do not fit. */
  function WindowTurn(t: Task, n: nat, fd: int): Turn
    requires t.buffer.Valid()
  {
    match Resized(t.buffer, t.buffer.size + n)
    case None => Throw(t)
    case Some(larger) =>
      var from := if t.connection.Some? then t.connection.value else fd;
      Return(t.(phase := Receiving, buffer := larger, request := Some(Request(Buffered, t.recvOffset, n, from))))
  }

  function Max(a: nat, b: nat): nat {
    if a < b then b else a
  }

  /** More memory at once when the header has told the size. */
  function Prepared(cfg: Config, b: Buffer, info: Option<H.Info>): (r: Option<Buffer>)
    requires b.Valid()
    ensures r.Some? ==> r.value.Valid() && r.value.size == b.size && r.value.Data() == b.Data()
    ensures r.Some?
  {
    if b.Owned() && |b.cells| < b.size + cfg.chunkSize && info.Some? then
      Reserved(b, Max(Add64(Add64(info.value.length % WORD, info.value.headerLength % WORD), cfg.chunkSize % WORD), |b.cells| + |b.cells| / 2))
    else Some(b)
  }

  /** `n` more bytes, counted and cut to size. */
  function Counted(t: Task, n: nat): Task {
    t.(buffer := t.buffer.(size := t.recvOffset + n), recvOffset := t.recvOffset + n)
  }

  ghost function AfterBytes(cfg: Config, t: Task, n: nat): Turn
    requires t.buffer.Valid() && t.recvOffset + n <= |t.buffer.cells|
  {
    var u := Counted(t, n);
    Judged(cfg, u, H.Finished(u.buffer.Data(), t.info))
  }

  function Judged(cfg: Config, t: Task, v: H.Verdict): Turn
    requires t.buffer.Valid()
  {
    match v
    case Throws => Fail(cfg, t, HTTP, FAILURES_MAX)
    case Says(false, info) => MoreBytes(cfg, t.(info := Some(info)))
    case Says(true, info) => Return(Delivered(t, info))
  }

  /** A complete response: the connection goes back, and the status decides. */
  function Delivered(t: Task, info: H.Info): Task {
    var over := GiveBack(t.(response := Some(info), info := None));
    if R.CheckSuccess(info.response.code) then over.(phase := Finished)
    else over.(phase := Aborted, failureCode := t.failureCode + {HTTP})
  }

  function MoreBytes(cfg: Config, t: Task): Turn
    requires t.buffer.Valid()
  {
    var b := Prepared(cfg, t.buffer, t.info);
    ArmReceive(cfg, t.(buffer := b.value), -1)
  }

  ghost function AfterReceive(cfg: Config, t: Task): Turn
    requires t.request.Some? && t.buffer.Valid()
    requires t.request.value.length > 0 ==> t.recvOffset + t.request.value.length <= |t.buffer.cells|
  {
    var n := t.request.value.length;
    if n == 0 then Fail(cfg, t, Empty, FAILURES_MAX)
    else if n > 0 then AfterBytes(cfg, t, n)
    else if n == -EINPROGRESS || n == -EAGAIN then MoreBytes(cfg, t)
    else Fail(cfg, t, if n == -ECANCELED || n == -EINTR then Timeout else Recv, FAILURES_MAX)
  }

  /** What holds whenever the loop looks at the phase. */
  predicate Ready(cfg: Config, t: Task) {
    && t.buffer.Valid()
    && (t.phase == InitSending || t.phase == Sending ==> t.sendOffset <= |t.message| + |cfg.put|)
    && (t.InFlight() ==> t.request.Some?)
    && (t.phase == Sending && t.request.value.length > 0 ==>
        t.sendOffset + t.request.value.length <= |t.message| + |cfg.put|)
    && (t.phase == Receiving && t.request.value.length > 0 ==>
        t.recvOffset + t.request.value.length <= |t.buffer.cells|)
  }

  ghost function OneTurn(cfg: Config, t: Task): Turn
    requires Ready(cfg, t)
  {
    match t.phase
    case Init => Connect(cfg, t)
    case InitSending => ArmSend(cfg, t, -1)
    case Sending => AfterSend(cfg, t)
    case InitReceiving => ArmReceive(cfg, t, if t.request.Some? then t.request.value.fd else -1)
    case Receiving => AfterReceive(cfg, t)
    case Finished => Return(t)
    case Aborted => Return(t)
  }

  // ---------------------------------------------------------------------------------------------
  // execute
  // ---------------------------------------------------------------------------------------------

  /** How many failures are left before the task gives up. */
  function Left(t: Task): nat {
    if t.Over() then 0 else if t.failures > FAILURES_MAX then 1 else FAILURES_MAX + 2 - t.failures
  }

  function Stage(t: Task): nat {
    if t.phase == Init || t.phase == InitSending then 2 else if t.phase == Sending then 1 else 0
  }

  lemma FailDescends(cfg: Config, t: Task, failure: Failure, limit: nat)
    requires t.buffer.Valid() && !t.Over() && limit <= FAILURES_MAX
    ensures var u := Fail(cfg, t, failure, limit).task;
            Ready(cfg, u) && Left(u) < Left(t)
  {
  }

  lemma ConnectDescends(cfg: Config, t: Task)
    requires Ready(cfg, t) && t.phase == Init && Connect(cfg, t).Again?
    ensures Ready(cfg, Connect(cfg, t).task) && Left(Connect(cfg, t).task) < Left(t)
  {
  }

  lemma AfterSendDescends(cfg: Config, t: Task)
    requires Ready(cfg, t) && t.phase == Sending && AfterSend(cfg, t).Again?
    ensures var u := AfterSend(cfg, t).task;
            Ready(cfg, u) && (Left(u) < Left(t) || (Left(u) == Left(t) && u.phase == InitReceiving))
  {
  }

  lemma AfterReceiveDescends(cfg: Config, t: Task)
    requires Ready(cfg, t) && t.phase == Receiving && AfterReceive(cfg, t).Again?
    ensures var u := AfterReceive(cfg, t).task; Ready(cfg, u) && Left(u) < Left(t)
  {
    var n := t.request.value.length;
    if n == 0 {
      FailDescends(cfg, t, Empty, FAILURES_MAX);
    } else if n > 0 {
      var u := Counted(t, n);
      FailDescends(cfg, u, HTTP, FAILURES_MAX);
    } else if n != -EINPROGRESS && n != -EAGAIN {
      FailDescends(cfg, t, if n == -ECANCELED || n == -EINTR then Timeout else Recv, FAILURES_MAX);
    }
  }

  /** A turn that goes on has used up a failure, or has moved on to the next stage. */
  lemma TurnDescends(cfg: Config, t: Task)
    requires Ready(cfg, t) && OneTurn(cfg, t).Again?
    ensures Ready(cfg, OneTurn(cfg, t).task)
    ensures var u := OneTurn(cfg, t).task; Left(u) < Left(t) || (Left(u) == Left(t) && Stage(u) < Stage(t))
  {
    if t.phase == Init {
      ConnectDescends(cfg, t);
    } else if t.phase == Sending {
      AfterSendDescends(cfg, t);
    } else if t.phase == Receiving {
      AfterReceiveDescends(cfg, t);
    }
  }

  /** `execute`: turns until it returns or throws. */
  ghost function Execute(cfg: Config, t: Task): (r: Turn)
    requires Ready(cfg, t)
    ensures !r.Again?
    decreases Left(t), Stage(t)
  {
    var turn := OneTurn(cfg, t);
    if turn.Again? then
      TurnDescends(cfg, t);
      Execute(cfg, turn.task)
    else turn
  }
}
