/** A run in which nothing goes wrong, from the connection to the result: src/network/http_message.cpp. */
module HttpTaskSuccess {
  import opened Options
  import opened DataVectors
  import opened HttpTask
  import opened HttpTaskRuns
  import opened HttpTaskTheorems
  import H = HttpHelper
  import R = HttpResponse
  import F = HttpFraming
  import S = HttpStatus

  // ---------------------------------------------------------------------------------------------
  // What the kernel does
  // ---------------------------------------------------------------------------------------------

  /** From `offset` on the sends take everything, each some bytes of the window at hand: of the header of `m` bytes, then of the
      `p` bytes to upload. */
  ghost predicate Takes(m: nat, p: nat, offset: nat, ns: seq<nat>)
    decreases |ns|
  {
    if ns == [] then offset == m + p
    else
      && offset < m + p && 0 < ns[0] <= (if p > 0 && offset >= m then m + p else m) - offset
      && Takes(m, p, offset + ns[0], ns[1..])
  }

  /** Pieces that fit the windows, and together the memory of the caller from `offset` on. */
  ghost predicate Fits(chunkSize: nat, b: Buffer, offset: nat, pieces: seq<string>) {
    && (forall i :: 0 <= i < |pieces| ==> 0 < |pieces[i]| <= chunkSize)
    && (!b.Owned() ==> offset + |F.Joined(pieces)| <= |b.cells|)
  }

  function Sends(ns: seq<nat>): seq<Completion> {
    if ns == [] then [] else [Took(ns[0])] + Sends(ns[1..])
  }

  function Receives(pieces: seq<string>): seq<Completion> {
    if pieces == [] then [] else [Gave(pieces[0])] + Receives(pieces[1..])
  }

  // ---------------------------------------------------------------------------------------------
  // Sending
  // ---------------------------------------------------------------------------------------------

  /** No failure so far. */
  predicate Unharmed(t: Task) {
    t.failures == 0 && t.failureCode == {}
  }

  /** The window asked for is as large as can be. */
  predicate Wide(cfg: Config, t: Task) {
    t.request.Some? &&
    t.request.value.length ==
      if !t.buffer.Owned() && |t.buffer.cells| - t.recvOffset < cfg.chunkSize then |t.buffer.cells| - t.recvOffset else cfg.chunkSize
  }

  /** Memory of the caller stays, and memory of the task stays its own. */
  predicate SameOwner(t: Task, u: Task) {
    t.buffer.Owned() == u.buffer.Owned() && SameMemory(t, u)
  }

  ghost predicate StartsToReceive(cfg: Config, t: Task) {
    && Waiting(cfg, t) && t.phase == Receiving && Unharmed(t) && Wide(cfg, t)
    && t.recvOffset == 0 && t.log.received == "" && t.info.None?
  }

  /** With the completions `cs` ahead, task `t` ends as `u` does with `ds` ahead. */
  ghost predicate Leads(cfg: Config, t: Task, cs: seq<Completion>, u: Task, ds: seq<Completion>)
    requires Waiting(cfg, t) && Waiting(cfg, u)
  {
    Run(cfg, Return(t), cs) == Run(cfg, Return(u), ds)
  }

  lemma Onward(cfg: Config, t: Task, cs: seq<Completion>, v: Task, es: seq<Completion>, u: Task, ds: seq<Completion>)
    requires Waiting(cfg, t) && Waiting(cfg, v) && Waiting(cfg, u)
    requires Leads(cfg, t, cs, v, es) && Leads(cfg, v, es, u, ds)
    ensures Leads(cfg, t, cs, u, ds)
  {
  }

  /** The run goes on where one completion leads. */
  lemma GoesOn(cfg: Config, t: Task, c: Completion, u: Task, cs: seq<Completion>)
    requires Waiting(cfg, t) && Possible(t, c)
    requires Inside(cfg, t, t.request.value) && (t.phase == Sending <==> t.request.value.area != Buffered)
    requires Ready(cfg, Land(cfg, t, c)) && Execute(cfg, Land(cfg, t, c)) == Return(u) && Waiting(cfg, u)
    ensures Leads(cfg, t, [c] + cs, u, cs)
  {
    RunOne(cfg, t, c, cs);
  }

  lemma SendsSome(cfg: Config, t: Task, n: nat, cs: seq<Completion>) returns (u: Task)
    requires Waiting(cfg, t) && t.phase == Sending && Unharmed(t) && cfg.chunkSize > 0
    requires Possible(t, Took(n)) && t.sendOffset + n < |All(cfg, t)|
    ensures Waiting(cfg, u) && u.phase == Sending && Unharmed(u)
    ensures u.sendOffset == t.sendOffset + n && u.buffer == t.buffer && u.message == t.message
    ensures Leads(cfg, t, [Took(n)] + cs, u, cs)
  {
    LandKeeps(cfg, t, Took(n));
    ExecuteKeeps(cfg, Land(cfg, t, Took(n)));
    u := Execute(cfg, Land(cfg, t, Took(n))).task;
    GoesOn(cfg, t, Took(n), u, cs);
  }

  lemma SendsLast(cfg: Config, t: Task, n: nat, cs: seq<Completion>) returns (u: Task)
    requires Waiting(cfg, t) && t.phase == Sending && Unharmed(t) && cfg.chunkSize > 0
    requires Possible(t, Took(n)) && t.sendOffset + n == |All(cfg, t)|
    ensures StartsToReceive(cfg, u) && SameOwner(t, u)
    ensures Leads(cfg, t, [Took(n)] + cs, u, cs)
  {
    u := LastSend(cfg, t, n);
    GoesOn(cfg, t, Took(n), u, cs);
  }

  lemma LastSend(cfg: Config, t: Task, n: nat) returns (u: Task)
    requires Waiting(cfg, t) && t.phase == Sending && Unharmed(t) && cfg.chunkSize > 0
    requires Possible(t, Took(n)) && t.sendOffset + n == |All(cfg, t)|
    ensures Inside(cfg, t, t.request.value) && t.request.value.area != Buffered && Ready(cfg, Land(cfg, t, Took(n)))
    ensures Execute(cfg, Land(cfg, t, Took(n))) == Return(u) && StartsToReceive(cfg, u) && SameOwner(t, u)
  {
    LandKeeps(cfg, t, Took(n));
    var v := Land(cfg, t, Took(n));
    ExecuteKeeps(cfg, v);
    EntryReady(cfg, v);
    u := Execute(cfg, v).task;
  }

  /** Everything is sent. */
  lemma {:induction false} SendsAll(cfg: Config, t: Task, ns: seq<nat>, cs: seq<Completion>) returns (u: Task)
    requires Waiting(cfg, t) && t.phase == Sending && Unharmed(t) && cfg.chunkSize > 0
    requires ns != [] && Takes(|t.message|, |cfg.put|, t.sendOffset, ns)
    ensures StartsToReceive(cfg, u) && SameOwner(t, u)
    ensures Leads(cfg, t, Sends(ns) + cs, u, cs)
    decreases |ns|
  {
    var n, rest := ns[0], ns[1..];
    FirstSend(ns, cs);
    FirstTaken(cfg, t, ns);
    if rest == [] {
      u := SendsLast(cfg, t, n, cs);
    } else {
      var v := SendsSome(cfg, t, n, Sends(rest) + cs);
      u := SendsAll(cfg, v, rest, cs);
      Onward(cfg, t, Sends(ns) + cs, v, Sends(rest) + cs, u, cs);
    }
  }

  /** The first of the sends is possible. */
  lemma FirstTaken(cfg: Config, t: Task, ns: seq<nat>)
    requires Waiting(cfg, t) && t.phase == Sending && ns != [] && Takes(|t.message|, |cfg.put|, t.sendOffset, ns)
    ensures Possible(t, Took(ns[0])) && t.sendOffset + ns[0] <= |All(cfg, t)|
    ensures t.sendOffset + ns[0] == |All(cfg, t)| <==> ns[1..] == []
    ensures Takes(|t.message|, |cfg.put|, t.sendOffset + ns[0], ns[1..])
  {
  }

  lemma FirstSend(ns: seq<nat>, cs: seq<Completion>)
    requires ns != []
    ensures Sends(ns) + cs == [Took(ns[0])] + (Sends(ns[1..]) + cs)
    ensures ns[1..] == [] ==> Sends(ns[1..]) + cs == cs
  {
  }

  // ---------------------------------------------------------------------------------------------
  // Receiving
  // ---------------------------------------------------------------------------------------------

  /** Between two pieces. */
  ghost predicate Receiver(cfg: Config, t: Task) {
    Waiting(cfg, t) && t.phase == Receiving && Unharmed(t) && Wide(cfg, t)
  }

  /** The turn that looks at a piece. */
  lemma PieceTurn(cfg: Config, t: Task, piece: string)
    requires Receiver(cfg, t) && Possible(t, Gave(piece))
    ensures Inside(cfg, t, t.request.value) && t.request.value.area == Buffered
    ensures Ready(cfg, Land(cfg, t, Gave(piece))) && t.recvOffset == |t.log.received|
    ensures var w := Counted(Land(cfg, t, Gave(piece)), |piece|);
            && w.buffer.Valid() && w.buffer.Data() == t.log.received + piece && w.log.received == t.log.received + piece
            && OneTurn(cfg, Land(cfg, t, Gave(piece))) == Judged(cfg, w, H.Finished(t.log.received + piece, t.info))
  {
    LandKeeps(cfg, t, Gave(piece));
    var u := Land(cfg, t, Gave(piece));
    EntryReady(cfg, u);
    assert Counted(u, |piece|).buffer.Data() == t.log.received + piece;
  }

  /** More is needed. */
  lemma PieceMore(cfg: Config, t: Task, piece: string, cs: seq<Completion>) returns (u: Task)
    requires Receiver(cfg, t) && Possible(t, Gave(piece)) && F.Feed(Framing(t), piece).Waiting?
    requires !t.buffer.Owned() ==> t.recvOffset + |piece| < |t.buffer.cells|
    ensures Receiver(cfg, u) && SameOwner(t, u) && u.recvOffset == t.recvOffset + |piece|
    ensures Framing(u) == F.Feed(Framing(t), piece)
    ensures Leads(cfg, t, [Gave(piece)] + cs, u, cs)
  {
    PieceTurn(cfg, t, piece);
    LandKeeps(cfg, t, Gave(piece));
    var v := Land(cfg, t, Gave(piece));
    TurnKeeps(cfg, v);
    u := OneTurn(cfg, v).task;
    MoreIsAsked(cfg, Counted(v, |piece|), H.Finished(t.log.received + piece, t.info));
    GoesOn(cfg, t, Gave(piece), u, cs);
  }

  lemma MoreIsAsked(cfg: Config, w: Task, v: H.Verdict)
    requires w.buffer.Valid() && v.Says? && !v.done && w.recvOffset == w.buffer.size && w.connection.Some?
    requires !w.buffer.Owned() ==> w.recvOffset < |w.buffer.cells|
    ensures var turn := Judged(cfg, w, v);
            && turn.Return? && turn.task.phase == Receiving && turn.task.info == Some(v.info) && turn.task.log == w.log
            && turn.task.recvOffset == w.recvOffset && Wide(cfg, turn.task) && SameOwner(w, turn.task)
            && turn.task.failures == w.failures && turn.task.failureCode == w.failureCode
  {
  }

  lemma EndIsDelivered(cfg: Config, w: Task, v: H.Verdict)
    requires w.buffer.Valid() && v.Says? && v.done && R.CheckSuccess(v.info.response.code)
    ensures var turn := Judged(cfg, w, v);
            && turn.Return? && turn.task.phase == Finished && turn.task.failureCode == w.failureCode
            && turn.task.response == Some(v.info) && turn.task.buffer == w.buffer
  {
  }

  /** The response is complete, and a success. */
  lemma PieceEnds(cfg: Config, t: Task, piece: string, cs: seq<Completion>) returns (u: Task)
    requires Receiver(cfg, t) && Possible(t, Gave(piece)) && F.Feed(Framing(t), piece).Complete?
    requires R.CheckSuccess(F.Feed(Framing(t), piece).info.response.code)
    ensures Waiting(cfg, u) && Success(u) && u.buffer.Valid()
    ensures var p := F.Feed(Framing(t), piece); u.response == Some(p.info) && u.buffer.Data() == p.data
    ensures Run(cfg, Return(t), [Gave(piece)] + cs) == Return(u)
  {
    PieceTurn(cfg, t, piece);
    LandKeeps(cfg, t, Gave(piece));
    var w := Land(cfg, t, Gave(piece));
    TurnKeeps(cfg, w);
    EndIsDelivered(cfg, Counted(w, |piece|), H.Finished(t.log.received + piece, t.info));
    u := OneTurn(cfg, w).task;
    GoesOn(cfg, t, Gave(piece), u, cs);
  }

  /** The pieces arrive one after the other, until the response is complete. */
  lemma {:induction false} ReceivesAll(cfg: Config, t: Task, pieces: seq<string>) returns (u: Task)
    requires Receiver(cfg, t) && Fits(cfg.chunkSize, t.buffer, t.recvOffset, pieces)
    requires var p := F.FeedAll(Framing(t), pieces); p.Complete? && R.CheckSuccess(p.info.response.code)
    ensures Waiting(cfg, u) && Success(u) && u.buffer.Valid()
    ensures var p := F.FeedAll(Framing(t), pieces); u.response == Some(p.info) && u.buffer.Data() == p.data
    ensures Run(cfg, Return(t), Receives(pieces)) == Return(u)
    decreases |pieces|
  {
    var piece, rest := pieces[0], pieces[1..];
    FirstPiece(cfg.chunkSize, t.buffer, t.recvOffset, pieces);
    var p := F.Feed(Framing(t), piece);
    if p.Waiting? {
      assert rest != [];
      var v := PieceMore(cfg, t, piece, Receives(rest));
      u := ReceivesAll(cfg, v, rest);
    } else {
      F.CompleteIsFinal(p, rest);
      u := PieceEnds(cfg, t, piece, Receives(rest));
    }
  }

  lemma FirstPiece(chunkSize: nat, b: Buffer, offset: nat, pieces: seq<string>)
    requires pieces != [] && Fits(chunkSize, b, offset, pieces)
    ensures 0 < |pieces[0]| <= chunkSize
    ensures Fits(chunkSize, b, offset + |pieces[0]|, pieces[1..])
    ensures !b.Owned() ==> offset + |pieces[0]| <= |b.cells| && (pieces[1..] != [] ==> offset + |pieces[0]| < |b.cells|)
  {
    var rest := pieces[1..];
    assert F.Joined(pieces) == pieces[0] + F.Joined(rest);
    if rest != [] { assert rest[0] == pieces[1] && F.Joined(rest) == rest[0] + F.Joined(rest[1..]); }
  }

  // ---------------------------------------------------------------------------------------------
  // What has been fed
  // ---------------------------------------------------------------------------------------------

  lemma {:induction false} FedData(p: F.Progress, pieces: seq<string>)
    requires p.Waiting?
    ensures var q := F.FeedAll(p, pieces);
            && (q.Waiting? ==> q.data == p.data + F.Joined(pieces))
            && (q.Complete? ==> q.data <= p.data + F.Joined(pieces))
    decreases |pieces|
  {
    if pieces == [] {
      assert p.data + F.Joined(pieces) == p.data;
    } else {
      var q, rest := F.Feed(p, pieces[0]), pieces[1..];
      assert p.data + F.Joined(pieces) == (p.data + pieces[0]) + F.Joined(rest);
      if q.Waiting? { FedData(q, rest); } else { F.CompleteIsFinal(q, rest); }
    }
  }

  lemma {:induction false} FedInTwo(p: F.Progress, a: seq<string>, b: seq<string>)
    ensures F.FeedAll(p, a + b) == F.FeedAll(F.FeedAll(p, a), b)
    decreases |a|
  {
    if a == [] {
      assert a + b == b;
    } else {
      assert (a + b)[0] == a[0] && (a + b)[1..] == a[1..] + b;
      FedInTwo(F.Feed(p, a[0]), a[1..], b);
    }
  }

  /** When the last piece `x` completes the response, all pieces together are the response. */
  lemma LastCompletes(start: F.Progress, a: seq<string>, x: string, pieces: seq<string>)
    requires start.Waiting? && !F.FeedAll(start, a).Complete? && pieces == a + [x] && F.FeedAll(start, pieces).Complete?
    ensures F.FeedAll(start, pieces).data == start.data + F.Joined(pieces)
  {
    FedInTwo(start, a, [x]);
    FedData(start, a);
    LastPiece(F.FeedAll(start, a), x);
    JoinedLast(a, x);
    assert start.data + (F.Joined(a) + x) == (start.data + F.Joined(a)) + x;
  }

  lemma LastPiece(q: F.Progress, x: string)
    requires !q.Complete? && F.FeedAll(q, [x]).Complete?
    ensures q.Waiting? && F.FeedAll(q, [x]).data == q.data + x
  {
    assert [x][1..] == [];
  }

  lemma {:induction false} JoinedLast(a: seq<string>, piece: string)
    ensures F.Joined(a + [piece]) == F.Joined(a) + piece
  {
    if a == [] {
      assert a + [piece] == [piece] && [piece][1..] == [];
    } else {
      assert (a + [piece])[0] == a[0] && (a + [piece])[1..] == a[1..] + [piece];
      JoinedLast(a[1..], piece);
    }
  }

  // ---------------------------------------------------------------------------------------------
  // From the connection to the result
  // ---------------------------------------------------------------------------------------------

  lemma Connects(cfg: Config, message: string, buffer: Buffer)
    requires buffer.Valid() && cfg.connect(0).Up?
    ensures Ready(cfg, Start(message, buffer))
    ensures var r := Execute(cfg, Start(message, buffer));
            && r.Return? && Waiting(cfg, r.task) && r.task.phase == Sending && Unharmed(r.task)
            && r.task.sendOffset == 0 && r.task.message == message && r.task.buffer == buffer
  {
    var t := Start(message, buffer);
    ExecuteKeeps(cfg, t);
    assert OneTurn(cfg, t) == Connect(cfg, t) && Connect(cfg, t).Return?;
  }

  /** A response that is complete and means success, in pieces of which the first holds the header. */
  ghost predicate GoodResponse(pieces: seq<string>) {
    var whole := F.Joined(pieces);
    && pieces != [] && H.Detect(whole).Some? && |pieces[0]| >= F.HeaderBytes(whole)
    && var v := H.Finished(whole, None); v.Says? && v.done && S.GoodStatus(whole)
  }

  /** The result of a task agrees with what `finished` says of all pieces together; it is all of them when those before the last
      are not complete. */
  ghost predicate RightResult(t: Task, pieces: seq<string>) {
    var whole := F.Joined(pieces);
    && pieces != [] && t.buffer.Valid() && t.buffer.Data() <= whole && t.response.Some?
    && var v := H.Finished(whole, None);
       && v.Says? && t.response.value.response == v.info.response && t.response.value.length == v.info.length
       && (!F.FeedAll(F.Waiting("", None), pieces[..|pieces| - 1]).Complete? ==> t.buffer.Data() == whole)
  }

  /** If the pool connects, every send is taken in parts of its window, and the response arrives in any pieces that fit, the first with
      the whole header, then the task is finished and a success, with the bytes received as its result and its connection given back. */
  lemma Succeeds(cfg: Config, message: string, buffer: Buffer, ns: seq<nat>, pieces: seq<string>)
    requires buffer.Valid() && cfg.connect(0).Up? && cfg.chunkSize > 0
    requires ns != [] && Takes(|message|, |cfg.put|, 0, ns)
    requires GoodResponse(pieces) && Fits(cfg.chunkSize, buffer, 0, pieces)
    ensures var r := RunOf(cfg, message, buffer, Sends(ns) + Receives(pieces));
            r.Return? && Success(r.task) && RightResult(r.task, pieces) && r.task.log.got == r.task.log.returned
  {
    Connects(cfg, message, buffer);
    var t := Execute(cfg, Start(message, buffer)).task;
    var u := SendsAll(cfg, t, ns, Receives(pieces));
    F.SplitVerdict(pieces);
    S.FinishedStatus(F.Joined(pieces));
    assert Framing(u) == F.Waiting("", None);
    var v := ReceivesAll(cfg, u, pieces);
    ResultIsRight(v, pieces);
    ConnectionsGivenBack(cfg, message, buffer, Sends(ns) + Receives(pieces));
  }

  lemma ResultIsRight(t: Task, pieces: seq<string>)
    requires GoodResponse(pieces) && t.buffer.Valid()
    requires var p := F.FeedAll(F.Waiting("", None), pieces); p.Complete? && t.response == Some(p.info) && t.buffer.Data() == p.data
    ensures RightResult(t, pieces)
  {
    F.SplitVerdict(pieces);
    FedData(F.Waiting("", None), pieces);
    assert "" + F.Joined(pieces) == F.Joined(pieces);
    var a, x := FrontAndLast(pieces);
    if !F.FeedAll(F.Waiting("", None), a).Complete? { LastCompletes(F.Waiting("", None), a, x, pieces); }
  }

  lemma FrontAndLast(pieces: seq<string>) returns (a: seq<string>, x: string)
    requires pieces != []
    ensures pieces == a + [x] && a == pieces[..|pieces| - 1]
  {
    a, x := pieces[..|pieces| - 1], pieces[|pieces| - 1];
  }
}
