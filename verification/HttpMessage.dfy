/** The task as an object that changes in place: src/network/http_message.cpp, include/network/message_task.hpp. */
module HttpMessages {
  import opened Options
  import opened Words
  import opened DataVectors
  import opened HttpTask
  import opened HttpTaskRuns
  import H = HttpHelper
  import R = HttpResponse

  /** How a turn ends. */
  datatype Outcome = GoesOn | Returns | Throws

  function TurnOf(outcome: Outcome, t: Task): Turn {
    match outcome case GoesOn => Again(t) case Returns => Return(t) case Throws => Throw(t)
  }

  class HttpMessage {
    const cfg: Config
    var phase: Phase
    var failureCode: set<Failure>
    var failures: nat
    var message: string
    var sendOffset: nat
    var recvOffset: nat
    var info: Option<H.Info>
    var response: Option<H.Info>
    const receive: DataVector
    var connection: Option<nat>
    var request: Option<Request>
    var log: Log

    ghost function Value(): Task
      reads this, receive, receive.data
    {
      Task(phase, failureCode, failures, message, sendOffset, recvOffset, info, response, receive.Value(),
           connection, request, log)
    }

    constructor (cfg: Config, message: string, receive: DataVector)
      ensures this.cfg == cfg && this.receive == receive
      ensures Value() == Start(message, receive.Value())
    {
      this.cfg, this.message, this.receive := cfg, message, receive;
      phase, failureCode, failures, sendOffset, recvOffset := Init, {}, 0, 0, 0;
      info, response, connection, request, log := None, None, None, None, Log(0, 0, 0, "", "");
    }

    method GiveBackConnection()
      modifies this`connection, this`log
      ensures Value() == GiveBack(old(Value()))
    {
      if connection.Some? {
        connection, log := None, log.(returned := log.returned + 1);
      }
    }

    method Clear(aborted: bool)
      requires receive.Valid()
      modifies this`phase, this`recvOffset, this`sendOffset, this`info, receive`size
      ensures receive.Valid() && Value() == Cleared(old(Value()), aborted)
    {
      if !aborted {
        receive.Clear();
        recvOffset, sendOffset := 0, 0;
        info := None;
        phase := Init;
      } else {
        phase := Aborted;
      }
    }

    method Reset(aborted: bool)
      requires receive.Valid()
      modifies this, receive`size
      ensures receive.Valid() && Value() == HttpTask.Reset(cfg, old(Value()), aborted)
    {
      failures := failures + 1;
      Clear(aborted);
      SignAgain();
      GiveBackConnection();
      request := Unused(request);
    }

    method SignAgain()
      modifies this`message
      ensures Value() == old(Value()).(message := Signed(cfg, old(Value())))
    {
      if HTTP in failureCode && cfg.resigns {
        message := cfg.resign(message);
      }
    }

    method Fail(failure: Failure, limit: nat)
      requires receive.Valid()
      modifies this, receive`size
      ensures receive.Valid() && Again(Value()) == HttpTask.Fail(cfg, old(Value()), failure, limit)
    {
      failureCode := failureCode + {failure};
      Reset(failures > limit);
    }

    method Submit(fd: int)
      requires sendOffset <= |message| + |cfg.put|
      modifies this`phase, this`request
      ensures Return(Value()) == ArmSend(cfg, old(Value()), fd)
    {
      phase := Sending;
      var area, start, length := Header, sendOffset, |message| - sendOffset;
      if |cfg.put| > 0 && sendOffset >= |message| {
        area, start, length := Put, sendOffset - |message|, |message| + |cfg.put| - sendOffset;
      }
      request := Some(Request(area, start, length, fd));
    }

    method Ask() returns (link: Link)
      modifies this`log, this`connection
      ensures link == cfg.connect(old(log.tries)) && Value() == Asked(old(Value()), link)
    {
      link := cfg.connect(log.tries);
      log := log.(tries := log.tries + 1);
      if !link.Refused? {
        connection, log := Some(link.fd), log.(got := log.got + 1);
      }
    }

    method Connect() returns (outcome: Outcome)
      requires receive.Valid()
      modifies this, receive`size
      ensures receive.Valid() && TurnOf(outcome, Value()) == HttpTask.Connect(cfg, old(Value()))
    {
      var link := Ask();
      if !link.Up? {
        request := Unused(request);
        Fail(Socket, CONNECTION_FAILURES_MAX);
        return GoesOn;
      }
      sendOffset, log := 0, log.(sent := "", received := "");
      Submit(link.fd);
      return Returns;
    }

    method BeginReceiving()
      requires receive.Valid()
      modifies this`phase, this`recvOffset, receive`size
      ensures receive.Valid() && Again(Value()) == HttpTask.BeginReceiving(old(Value()))
    {
      phase, recvOffset := InitReceiving, 0;
      receive.Clear();
    }

    method AfterSend() returns (outcome: Outcome)
      requires receive.Valid() && Ready(cfg, Value()) && phase == Sending
      modifies this, receive`size
      ensures receive.Valid() && TurnOf(outcome, Value()) == HttpTask.AfterSend(cfg, old(Value()))
    {
      var fd, length := request.value.fd, request.value.length;
      if length > 0 {
        sendOffset := sendOffset + length;
      } else if length != -EINPROGRESS && length != -EAGAIN {
        if length == -ECANCELED || length == -EINTR {
          Fail(Timeout, FAILURES_MAX);
          return GoesOn;
        }
        failureCode := failureCode + {Send};
        BeginReceiving();
        return GoesOn;
      }
      if sendOffset >= |message| + |cfg.put| {
        BeginReceiving();
        return GoesOn;
      }
      Submit(fd);
      return Returns;
    }

    method SubmitReceive(fd: int) returns (outcome: Outcome)
      requires receive.Valid()
      modifies this`phase, this`failureCode, this`request, receive
      ensures receive.Valid() && TurnOf(outcome, Value()) == ArmReceive(cfg, old(Value()), fd)
      ensures receive.data == old(receive.data) || fresh(receive.data)
    {
      var readSize := cfg.chunkSize;
      var owned := receive.Owned();
      if !owned {
        if receive.data.Length <= recvOffset {
          failureCode, phase := failureCode + {Recv}, Aborted;
          return Returns;
        }
        if receive.data.Length - recvOffset < cfg.chunkSize {
          readSize := receive.data.Length - recvOffset;
        }
      }
      outcome := SubmitWindow(readSize, fd);
    }

    method SubmitWindow(readSize: nat, fd: int) returns (outcome: Outcome)
      requires receive.Valid()
      modifies this`phase, this`request, receive
      ensures receive.Valid() && TurnOf(outcome, Value()) == WindowTurn(old(Value()), readSize, fd)
      ensures receive.data == old(receive.data) || fresh(receive.data)
    {
      var ok := receive.Resize(receive.size + readSize);
      if !ok {
        return Throws;
      }
      request := Some(Request(Buffered, recvOffset, readSize, if connection.Some? then connection.value else fd));
      phase := Receiving;
      return Returns;
    }

    method Prepare()
      requires receive.Valid()
      modifies receive
      ensures receive.Valid() && Value() == old(Value()).(buffer := Prepared(cfg, old(receive.Value()), info).value)
      ensures receive.data == old(receive.data) || fresh(receive.data)
    {
      var owned := receive.Owned();
      if owned && receive.data.Length < receive.size + cfg.chunkSize && info.Some? {
        var known := Add64(Add64(info.value.length % WORD, info.value.headerLength % WORD), cfg.chunkSize % WORD);
        var ok := receive.Reserve(Max(known, receive.data.Length + receive.data.Length / 2));
      }
    }

    method AfterReceive() returns (outcome: Outcome)
      requires receive.Valid() && Ready(cfg, Value()) && phase == Receiving
      modifies this, receive
      ensures receive.Valid() && TurnOf(outcome, Value()) == HttpTask.AfterReceive(cfg, old(Value()))
      ensures receive.data == old(receive.data) || fresh(receive.data)
    {
      var length := request.value.length;
      if length == 0 {
        Fail(Empty, FAILURES_MAX);
        return GoesOn;
      } else if length > 0 {
        var judged;
        outcome, judged := Count(length);
        if judged {
          return outcome;
        }
      } else if length != -EINPROGRESS && length != -EAGAIN {
        Fail(if length == -ECANCELED || length == -EINTR then Timeout else Recv, FAILURES_MAX);
        return GoesOn;
      }
      Prepare();
      outcome := SubmitReceive(-1);
    }

    /** The part of a successful receive before more bytes are asked for; `judged` when none are. */
    method Count(length: nat) returns (outcome: Outcome, judged: bool)
      requires receive.Valid() && phase == Receiving && recvOffset + length <= receive.data.Length
      modifies this, receive`size
      ensures receive.Valid()
      ensures if judged then TurnOf(outcome, Value()) == AfterBytes(cfg, old(Value()), length)
              else MoreBytes(cfg, Value()) == AfterBytes(cfg, old(Value()), length)
    {
      ghost var t := Counted(Value(), length);
      receive.size := recvOffset + length;
      recvOffset := recvOffset + length;
      assert Value() == t && receive.data[..recvOffset] == t.buffer.Data();
      var verdict := H.RunFinished(receive.data[..recvOffset], info);
      match verdict
      case Throws =>
        Fail(HTTP, FAILURES_MAX);
        return GoesOn, true;
      case Says(false, i) =>
        info := Some(i);
        return GoesOn, false;
      case Says(true, i) =>
        Deliver(i);
        return Returns, true;
    }

    method Deliver(i: H.Info)
      modifies this`response, this`info, this`connection, this`log, this`phase, this`failureCode
      ensures Value() == Delivered(old(Value()), i)
    {
      response, info := Some(i), None;
      GiveBackConnection();
      if R.CheckSuccess(i.response.code) {
        phase := Finished;
      } else {
        failureCode, phase := failureCode + {HTTP}, Aborted;
      }
    }

    /** One turn of the loop. */
    method Step() returns (outcome: Outcome)
      requires receive.Valid() && Ready(cfg, Value())
      modifies this, receive
      ensures receive.Valid() && TurnOf(outcome, Value()) == OneTurn(cfg, old(Value()))
      ensures receive.data == old(receive.data) || fresh(receive.data)
    {
      match phase
      case Init => outcome := Connect();
      case InitSending => Submit(-1); outcome := Returns;
      case Sending => outcome := AfterSend();
      case InitReceiving => outcome := SubmitReceive(if request.Some? then request.value.fd else -1);
      case Receiving => outcome := AfterReceive();
      case _ => outcome := Returns;
    }

    method Execute() returns (outcome: Outcome)
      requires receive.Valid() && Ready(cfg, Value())
      modifies this, receive
      ensures receive.Valid() && TurnOf(outcome, Value()) == HttpTask.Execute(cfg, old(Value()))
      ensures receive.data == old(receive.data) || fresh(receive.data)
    {
      while true
        invariant receive.Valid() && Ready(cfg, Value())
        invariant HttpTask.Execute(cfg, Value()) == HttpTask.Execute(cfg, old(Value()))
        invariant receive.data == old(receive.data) || fresh(receive.data)
        decreases Left(Value()), Stage(Value())
      {
        ghost var t := Value();
        outcome := Step();
        if outcome != GoesOn {
          return;
        }
        TurnDescends(cfg, t);
      }
    }

    /** The kernel completes the request in flight. */
    method Complete(c: Completion)
      requires receive.Valid() && Possible(Value(), c) && Inside(cfg, Value(), request.value)
      requires phase == Sending <==> request.value.area != Buffered
      modifies this`request, this`log, receive.data
      ensures receive.Valid() && Value() == Land(cfg, old(Value()), c)
    {
      var r := request.value;
      match c
      case Took(n) =>
        var area := if r.area == Header then message else cfg.put;
        request, log := Some(r.(length := n)), log.(sent := log.sent + area[r.start..r.start + n]);
      case Gave(bytes) =>
        receive.Store(r.start, bytes);
        request, log := Some(r.(length := |bytes|)), log.(received := log.received + bytes);
      case Reported(code) =>
        request := Some(r.(length := code));
    }
  }
}
