/** The event loop of one sender: src/network/tasked_send_receiver.cpp, over an abstract socket.
    A task is known by its ticket, the position of its message in the order in which messages were dequeued. One call of
    `execute` leaves exactly one request with the socket, or ends the task, or throws. */
module EventLoop {

  datatype Status = Flying | Finished | Aborted | Thrown

  /** How the tasks of a run behave: message `m` needs `need(m)` calls of `execute`, the last of which gives `end(m)`. */
  datatype Behaviour = Behaviour(need: nat -> nat, end: nat -> Status, callback: nat -> bool)

  ghost predicate Sensible(b: Behaviour) {
    forall m {:trigger b.need(m)} {:trigger b.end(m)} :: b.need(m) > 0 && b.end(m) != Flying
  }

  datatype Ticket = Ticket(message: nat, rounds: nat, status: Status)

  function StatusAfter(b: Behaviour, message: nat, rounds: nat): Status {
    if rounds < b.need(message) then Flying else b.end(message)
  }

  predicate Over(s: Status) {
    s == Finished || s == Aborted
  }

  // ---------------------------------------------------------------------------------------------
  // Work that is left
  // ---------------------------------------------------------------------------------------------

  function Waiting(b: Behaviour, queue: seq<nat>): nat {
    if queue == [] then 0 else b.need(queue[0]) + Waiting(b, queue[1..])
  }

  function Remaining(b: Behaviour, t: Ticket): nat {
    if t.status == Flying && t.rounds < b.need(t.message) then b.need(t.message) - t.rounds else 0
  }

  function Open(b: Behaviour, book: seq<Ticket>): nat {
    if book == [] then 0 else Remaining(b, book[0]) + Open(b, book[1..])
  }

  lemma {:induction false} OpenUpdate(b: Behaviour, book: seq<Ticket>, i: nat, t: Ticket)
    requires i < |book|
    ensures Open(b, book[i := t]) == Open(b, book) - Remaining(b, book[i]) + Remaining(b, t)
  {
    if i > 0 {
      OpenUpdate(b, book[1..], i - 1, t);
      assert book[i := t][1..] == book[1..][i - 1 := t];
    }
  }

  lemma {:induction false} OpenAppend(b: Behaviour, book: seq<Ticket>, t: Ticket)
    ensures Open(b, book + [t]) == Open(b, book) + Remaining(b, t)
  {
    if book != [] {
      assert (book + [t])[1..] == book[1..] + [t];
      OpenAppend(b, book[1..], t);
    }
  }

  function Joined(batches: seq<seq<nat>>): seq<nat> {
    if batches == [] then [] else batches[0] + Joined(batches[1..])
  }

  ghost predicate NoDuplicates(s: seq<nat>) {
    s == [] || (s[0] !in s[1..] && NoDuplicates(s[1..]))
  }

  lemma {:induction false} NoDuplicatesAppend(s: seq<nat>, x: nat)
    requires NoDuplicates(s) && x !in s
    ensures NoDuplicates(s + [x])
  {
    if s != [] {
      NoDuplicatesAppend(s[1..], x);
      assert (s + [x])[1..] == s[1..] + [x];
    }
  }

  lemma {:induction false} CountElements(s: seq<nat>, elements: set<nat>)
    requires NoDuplicates(s) && forall x :: x in s <==> x in elements
    ensures |elements| == |s|
  {
    if s == [] {
      assert elements == {};
    } else {
      assert forall x :: x in s <==> x == s[0] || x in s[1..];
      CountElements(s[1..], elements - {s[0]});
      assert elements == (elements - {s[0]}) + {s[0]};
    }
  }

  // ---------------------------------------------------------------------------------------------
  // The invariant, on values
  // ---------------------------------------------------------------------------------------------

  ghost predicate Flies(book: seq<Ticket>, t: nat) {
    t < |book| && book[t].status == Flying
  }

  /** A ticket records what the task has done so far. */
  ghost predicate TicketOk(b: Behaviour, t: Ticket, failed: bool) {
    && 1 <= t.rounds <= b.need(t.message) && t.status == StatusAfter(b, t.message, t.rounds)
    && (t.status == Thrown ==> failed)
  }

  /** A task is alive exactly as long as it flies, unless `execute` threw. */
  ghost predicate TaskOk(book: seq<Ticket>, tasks: seq<nat>, failed: bool, t: nat) {
    && (Flies(book, t) ==> t in tasks)
    && (t in tasks ==> t < |book| && (Flies(book, t) || failed))
  }

  /** A task that flies has one request with the socket, and there are no other requests. */
  ghost predicate RequestOk(book: seq<Ticket>, prepared: set<nat>, inFlight: set<nat>, t: nat) {
    && (Flies(book, t) <==> t in prepared || t in inFlight)
    && !(t in prepared && t in inFlight)
  }

  /** The callback of a message has been made exactly when its task has finished or was aborted. */
  ghost predicate FinishOk(b: Behaviour, book: seq<Ticket>, finishes: seq<nat>, t: nat) {
    t in finishes <==> t < |book| && Over(book[t].status) && b.callback(book[t].message)
  }

  ghost predicate TicketsOk(b: Behaviour, book: seq<Ticket>, failed: bool) {
    forall t: nat {:trigger TicketOk(b, book[t], failed)} :: t < |book| ==> TicketOk(b, book[t], failed)
  }

  ghost predicate TasksOk(book: seq<Ticket>, tasks: seq<nat>, failed: bool) {
    NoDuplicates(tasks) && forall t: nat {:trigger TaskOk(book, tasks, failed, t)} :: TaskOk(book, tasks, failed, t)
  }

  ghost predicate SocketOk(book: seq<Ticket>, prepared: set<nat>, inFlight: set<nat>) {
    forall t: nat {:trigger RequestOk(book, prepared, inFlight, t)} :: RequestOk(book, prepared, inFlight, t)
  }

  ghost predicate FinishesOk(b: Behaviour, book: seq<Ticket>, finishes: seq<nat>) {
    NoDuplicates(finishes) && forall t: nat {:trigger FinishOk(b, book, finishes, t)} :: FinishOk(b, book, finishes, t)
  }

  function Finishing(b: Behaviour, finishes: seq<nat>, ticket: nat, t: Ticket): seq<nat> {
    if Over(t.status) && b.callback(t.message) then finishes + [ticket] else finishes
  }

  lemma TicketsNew(b: Behaviour, book: seq<Ticket>, t: Ticket)
    requires TicketsOk(b, book, false) && TicketOk(b, t, t.status == Thrown)
    ensures TicketsOk(b, book + [t], t.status == Thrown)
  {
    var after, failed := book + [t], t.status == Thrown;
    forall i: nat | i < |after|
      ensures TicketOk(b, after[i], failed)
    {
      if i < |book| { assert TicketOk(b, book[i], false); }
    }
  }

  lemma TicketsNext(b: Behaviour, book: seq<Ticket>, i: nat, t: Ticket, failed: bool)
    requires i < |book| && TicketsOk(b, book, failed) && TicketOk(b, t, failed || t.status == Thrown)
    ensures TicketsOk(b, book[i := t], failed || t.status == Thrown)
  {
    var after, failedAfter := book[i := t], failed || t.status == Thrown;
    forall k: nat | k < |book|
      ensures TicketOk(b, after[k], failedAfter)
    {
      assert TicketOk(b, book[k], failed);
    }
  }

  lemma TasksNew(book: seq<Ticket>, tasks: seq<nat>, t: Ticket)
    requires TasksOk(book, tasks, false)
    ensures TasksOk(book + [t], if t.status == Flying then tasks + [|book|] else tasks, t.status == Thrown)
  {
    assert TaskOk(book, tasks, false, |book|);
    if t.status == Flying { NoDuplicatesAppend(tasks, |book|); }
    var after, tasksAfter, failed := book + [t], if t.status == Flying then tasks + [|book|] else tasks, t.status == Thrown;
    forall k: nat
      ensures TaskOk(after, tasksAfter, failed, k)
    {
      assert TaskOk(book, tasks, false, k);
    }
  }

  lemma TasksNext(book: seq<Ticket>, tasks: seq<nat>, i: nat, t: Ticket, failed: bool)
    requires TasksOk(book, tasks, failed) && Flies(book, i)
    ensures TasksOk(book[i := t], if Over(t.status) then Without(tasks, i) else tasks, failed || t.status == Thrown)
  {
    WithoutIs(tasks, i);
    var after, tasksAfter := book[i := t], if Over(t.status) then Without(tasks, i) else tasks;
    var failedAfter := failed || t.status == Thrown;
    forall k: nat
      ensures TaskOk(after, tasksAfter, failedAfter, k)
    {
      assert TaskOk(book, tasks, failed, k);
    }
  }

  lemma SocketNew(book: seq<Ticket>, prepared: set<nat>, inFlight: set<nat>, t: Ticket)
    requires SocketOk(book, prepared, inFlight)
    ensures SocketOk(book + [t], if t.status == Flying then prepared + {|book|} else prepared, inFlight)
  {
    var after, preparedAfter := book + [t], if t.status == Flying then prepared + {|book|} else prepared;
    forall k: nat
      ensures RequestOk(after, preparedAfter, inFlight, k)
    {
      assert RequestOk(book, prepared, inFlight, k);
    }
  }

  lemma SocketNext(book: seq<Ticket>, inFlight: set<nat>, i: nat, t: Ticket)
    requires SocketOk(book, {}, inFlight) && i in inFlight
    ensures Flies(book, i) && SocketOk(book[i := t], if t.status == Flying then {i} else {}, inFlight - {i})
  {
    assert RequestOk(book, {}, inFlight, i);
    var after, preparedAfter: set<nat>, inFlightAfter := book[i := t], if t.status == Flying then {i} else {}, inFlight - {i};
    forall k: nat
      ensures RequestOk(after, preparedAfter, inFlightAfter, k)
    {
      assert RequestOk(book, {}, inFlight, k);
    }
  }

  lemma FinishesNew(b: Behaviour, book: seq<Ticket>, finishes: seq<nat>, t: Ticket)
    requires FinishesOk(b, book, finishes)
    ensures FinishesOk(b, book + [t], Finishing(b, finishes, |book|, t))
  {
    assert FinishOk(b, book, finishes, |book|);
    NoDuplicatesAppend(finishes, |book|);
    var after, finishesAfter := book + [t], Finishing(b, finishes, |book|, t);
    forall k: nat
      ensures FinishOk(b, after, finishesAfter, k)
    {
      assert FinishOk(b, book, finishes, k);
    }
  }

  lemma FinishesNext(b: Behaviour, book: seq<Ticket>, finishes: seq<nat>, i: nat, t: Ticket)
    requires FinishesOk(b, book, finishes) && Flies(book, i) && t.message == book[i].message
    ensures FinishesOk(b, book[i := t], Finishing(b, finishes, i, t))
  {
    assert FinishOk(b, book, finishes, i);
    NoDuplicatesAppend(finishes, i);
    var after, finishesAfter := book[i := t], Finishing(b, finishes, i, t);
    forall k: nat
      ensures FinishOk(b, after, finishesAfter, k)
    {
      assert FinishOk(b, book, finishes, k);
    }
  }

  /** With all requests submitted and no exception, requests in flight are the tasks alive. */
  lemma FlyingAreTasks(book: seq<Ticket>, tasks: seq<nat>, inFlight: set<nat>)
    requires TasksOk(book, tasks, false) && SocketOk(book, {}, inFlight)
    ensures |inFlight| == |tasks|
  {
    forall t: nat
      ensures t in tasks <==> t in inFlight
    {
      assert TaskOk(book, tasks, false, t) && RequestOk(book, {}, inFlight, t);
    }
    CountElements(tasks, inFlight);
  }

  function Without(tasks: seq<nat>, ticket: nat): seq<nat> {
    if tasks == [] then [] else if tasks[0] == ticket then tasks[1..] else [tasks[0]] + Without(tasks[1..], ticket)
  }

  lemma {:induction false} WithoutIs(tasks: seq<nat>, ticket: nat)
    requires NoDuplicates(tasks)
    ensures NoDuplicates(Without(tasks, ticket)) && |Without(tasks, ticket)| <= |tasks|
    ensures forall x :: x in Without(tasks, ticket) <==> x in tasks && x != ticket
  {
    if tasks != [] {
      WithoutIs(tasks[1..], ticket);
      assert forall x :: x in tasks <==> x == tasks[0] || x in tasks[1..];
      if tasks[0] != ticket {
        var r := Without(tasks[1..], ticket);
        assert ([tasks[0]] + r)[1..] == r;
        assert forall x :: x in [tasks[0]] + r <==> x == tasks[0] || x in r;
      }
    }
  }

  lemma {:induction false} WithoutAt(tasks: seq<nat>, ticket: nat, i: nat)
    requires i <= |tasks| && ticket !in tasks[..i] && (i < |tasks| ==> tasks[i] == ticket)
    ensures Without(tasks, ticket) == if i < |tasks| then tasks[..i] + tasks[i + 1..] else tasks
  {
    if i > 0 {
      assert tasks[0] in tasks[..i] && tasks[1..][..i - 1] == tasks[..i][1..];
      WithoutAt(tasks[1..], ticket, i - 1);
    }
  }

  // ---------------------------------------------------------------------------------------------
  // The steps of the loop, on values
  // ---------------------------------------------------------------------------------------------

  /** `queue` holds the messages submitted so far, `future` the batches that other threads will still add, `tasks` the
      tasks alive and `book` every task started; `prepared` and `inFlight` are the requests of the socket. */
  datatype State = State(queue: seq<nat>, future: seq<seq<nat>>, tasks: seq<nat>, book: seq<Ticket>, finishes: seq<nat>,
                         failed: bool, prepared: set<nat>, inFlight: set<nat>)

  /** Some task has thrown. */
  ghost predicate ThrownIn(book: seq<Ticket>) {
    exists t: nat :: t < |book| && book[t].status == Thrown
  }

  ghost predicate Inv(b: Behaviour, cap: nat, s: State) {
    && Sensible(b) && cap > 0 && |s.tasks| <= cap && (s.failed ==> ThrownIn(s.book))
    && TicketsOk(b, s.book, s.failed) && TasksOk(s.book, s.tasks, s.failed)
    && SocketOk(s.book, s.prepared, s.inFlight) && FinishesOk(b, s.book, s.finishes)
  }

  /** The messages dequeued so far, in order. */
  function Dequeued(book: seq<Ticket>): seq<nat> {
    if book == [] then [] else Dequeued(book[..|book| - 1]) + [book[|book| - 1].message]
  }

  lemma {:induction false} DequeuedUpdate(book: seq<Ticket>, i: nat, t: Ticket)
    requires i < |book| && t.message == book[i].message
    ensures Dequeued(book[i := t]) == Dequeued(book)
  {
    var n := |book| - 1;
    if i < n {
      DequeuedUpdate(book[..n], i, t);
      assert book[i := t][..n] == book[..n][i := t];
    } else {
      assert book[i := t][..n] == book[..n];
    }
  }

  /** Every message, dequeued, queued or still to come, in order. */
  function Messages(s: State): seq<nat> {
    Dequeued(s.book) + s.queue + Joined(s.future)
  }

  /** Executions that are still to come for the messages known. */
  function Work(b: Behaviour, s: State): nat {
    Waiting(b, s.queue) + Open(b, s.book)
  }

  function Arrived(s: State): State {
    if s.future == [] then s else s.(queue := s.queue + s.future[0], future := s.future[1..])
  }

  lemma ArrivedKeeps(s: State)
    ensures Messages(Arrived(s)) == Messages(s)
    ensures s.future != [] ==> |Arrived(s).future| < |s.future|
  {
    if s.future != [] {
      assert Dequeued(s.book) + (s.queue + s.future[0]) + Joined(s.future[1..]) == Dequeued(s.book) + s.queue + (s.future[0] + Joined(s.future[1..]));
    }
  }

  /** The first message leaves the queue and is executed for the first time. */
  function Started(b: Behaviour, s: State): State
    requires s.queue != []
  {
    var t := Ticket(s.queue[0], 1, StatusAfter(b, s.queue[0], 1));
    var u := s.(queue := s.queue[1..], book := s.book + [t], finishes := Finishing(b, s.finishes, |s.book|, t));
    if t.status == Flying then u.(tasks := s.tasks + [|s.book|], prepared := s.prepared + {|s.book|})
    else if t.status == Thrown then u.(failed := true)
    else u
  }

  function FirstTicket(b: Behaviour, message: nat): Ticket {
    Ticket(message, 1, StatusAfter(b, message, 1))
  }

  lemma StartedKeeps(b: Behaviour, cap: nat, s: State)
    requires Inv(b, cap, s) && !s.failed && |s.tasks| < cap && s.queue != []
    ensures Inv(b, cap, Started(b, s)) && Messages(Started(b, s)) == Messages(s)
    ensures Work(b, Started(b, s)) < Work(b, s)
  {
    var t := FirstTicket(b, s.queue[0]);
    TicketsNew(b, s.book, t);
    TasksNew(s.book, s.tasks, t);
    SocketNew(s.book, s.prepared, s.inFlight, t);
    FinishesNew(b, s.book, s.finishes, t);
    assert (s.book + [t])[|s.book|] == t;
    StartedMessages(b, s);
    StartedWork(b, s);
  }

  lemma StartedMessages(b: Behaviour, s: State)
    requires s.queue != []
    ensures Messages(Started(b, s)) == Messages(s)
  {
    var t := FirstTicket(b, s.queue[0]);
    assert (s.book + [t])[..|s.book|] == s.book;
    assert Dequeued(s.book + [t]) == Dequeued(s.book) + [s.queue[0]];
    assert Dequeued(s.book) + [s.queue[0]] + s.queue[1..] == Dequeued(s.book) + s.queue;
  }

  lemma StartedWork(b: Behaviour, s: State)
    requires Sensible(b) && s.queue != []
    ensures Work(b, Started(b, s)) < Work(b, s)
  {
    OpenAppend(b, s.book, FirstTicket(b, s.queue[0]));
    assert b.need(s.queue[0]) > 0;
  }

  function Next(b: Behaviour, t: Ticket): Ticket {
    t.(rounds := t.rounds + 1, status := StatusAfter(b, t.message, t.rounds + 1))
  }

  /** The request of `ticket` has completed: the task is executed once more. */
  function Continued(b: Behaviour, s: State, ticket: nat): State
    requires ticket < |s.book|
  {
    var t := Next(b, s.book[ticket]);
    var u := s.(book := s.book[ticket := t], finishes := Finishing(b, s.finishes, ticket, t), inFlight := s.inFlight - {ticket});
    if t.status == Flying then u.(prepared := s.prepared + {ticket})
    else if t.status == Thrown then u.(failed := true)
    else u.(tasks := Without(s.tasks, ticket))
  }

  lemma ContinuedKeeps(b: Behaviour, cap: nat, s: State, ticket: nat)
    requires Inv(b, cap, s) && s.prepared == {} && ticket in s.inFlight
    ensures ticket < |s.book| && Inv(b, cap, Continued(b, s, ticket)) && Messages(Continued(b, s, ticket)) == Messages(s)
    ensures Work(b, Continued(b, s, ticket)) < Work(b, s)
    ensures |Continued(b, s, ticket).inFlight| == |s.inFlight| - 1
  {
    assert RequestOk(s.book, s.prepared, s.inFlight, ticket);
    var t := Next(b, s.book[ticket]);
    assert TicketOk(b, s.book[ticket], s.failed);
    TicketsNext(b, s.book, ticket, t, s.failed);
    WithoutIs(s.tasks, ticket);
    TasksNext(s.book, s.tasks, ticket, t, s.failed);
    SocketNext(s.book, s.inFlight, ticket, t);
    FinishesNext(b, s.book, s.finishes, ticket, t);
    ThrownNext(s.book, ticket, t);
    OpenUpdate(b, s.book, ticket, t);
    DequeuedUpdate(s.book, ticket, t);
  }

  lemma ThrownNext(book: seq<Ticket>, i: nat, t: Ticket)
    requires Flies(book, i)
    ensures ThrownIn(book) || t.status == Thrown ==> ThrownIn(book[i := t])
  {
    if t.status == Thrown {
      assert book[i := t][i] == t;
    } else if ThrownIn(book) {
      var k: nat :| k < |book| && book[k].status == Thrown;
      assert book[i := t][k] == book[k];
    }
  }

  lemma InFlightKnown(b: Behaviour, cap: nat, s: State)
    requires Inv(b, cap, s)
    ensures forall t :: t in s.inFlight ==> t < |s.book|
  {
    forall t | t in s.inFlight
      ensures t < |s.book|
    {
      assert RequestOk(s.book, s.prepared, s.inFlight, t);
    }
  }

  function Submitted(s: State): State {
    s.(prepared := {}, inFlight := s.inFlight + s.prepared)
  }

  lemma SubmittedKeeps(b: Behaviour, cap: nat, s: State)
    requires Inv(b, cap, s)
    ensures Inv(b, cap, Submitted(s)) && Messages(Submitted(s)) == Messages(s) && Work(b, Submitted(s)) == Work(b, s)
    ensures |Submitted(s).inFlight| == |s.inFlight| + |s.prepared|
    ensures !s.failed ==> |Submitted(s).inFlight| == |s.tasks|
  {
    var all := s.inFlight + s.prepared;
    forall t: nat
      ensures RequestOk(s.book, {}, all, t)
    {
      assert RequestOk(s.book, s.prepared, s.inFlight, t);
    }
    Disjoint(s);
    if !s.failed { FlyingAreTasks(s.book, s.tasks, all); }
  }

  lemma Disjoint(s: State)
    requires SocketOk(s.book, s.prepared, s.inFlight)
    ensures |s.inFlight + s.prepared| == |s.inFlight| + |s.prepared|
  {
    forall t | t in s.prepared
      ensures t !in s.inFlight
    {
      assert RequestOk(s.book, s.prepared, s.inFlight, t);
    }
    assert s.inFlight * s.prepared == {};
  }

  /** Starts queued messages until the queue is empty, enough tasks are alive, or an exception is thrown. */
  function Emplaced(b: Behaviour, cap: nat, s: State): State
    decreases |s.queue|
  {
    if s.queue == [] then s
    else
      var u := Started(b, s);
      if u.failed || |u.tasks| >= cap then u else Emplaced(b, cap, u)
  }

  lemma {:induction false} EmplacedKeeps(b: Behaviour, cap: nat, s: State)
    requires Inv(b, cap, s) && !s.failed && |s.tasks| < cap
    ensures var u := Emplaced(b, cap, s);
            && Inv(b, cap, u) && Messages(u) == Messages(s) && u.future == s.future
            && (u.queue == [] || |u.tasks| == cap || u.failed)
            && (if s.queue == [] then u == s else Work(b, u) < Work(b, s))
    decreases |s.queue|
  {
    if s.queue != [] {
      StartedKeeps(b, cap, s);
      var u := Started(b, s);
      if !u.failed && |u.tasks| < cap { EmplacedKeeps(b, cap, u); }
    }
  }

  /** New tasks are started unless the loop is to stop, enough tasks are alive, or there was an exception. */
  function Refilled(b: Behaviour, cap: nat, s: State, stop: bool): State {
    if !stop && |s.tasks| < cap && !s.failed then Emplaced(b, cap, s) else s
  }

  lemma RefilledKeeps(b: Behaviour, cap: nat, s: State, stop: bool)
    requires Inv(b, cap, s)
    ensures var u := Refilled(b, cap, s, stop);
            && Inv(b, cap, u) && Messages(u) == Messages(s) && u.future == s.future && u.inFlight == s.inFlight
            && (Work(b, u) < Work(b, s) || (u == s && (stop || u.failed || u.queue == [] || |u.tasks| >= cap)))
  {
    if !stop && |s.tasks| < cap && !s.failed {
      EmplacedKeeps(b, cap, s);
      EmplacedSocket(b, cap, s);
    }
  }

  /** One round of the loop up to the submission. When requests are in flight, the one of `ticket` completes first. */
  function Served(b: Behaviour, cap: nat, s: State, stop: bool, ticket: nat): State
    requires s.inFlight != {} ==> ticket < |s.book|
  {
    var arrived := Arrived(s);
    var continued := if s.inFlight != {} then Continued(b, arrived, ticket) else arrived;
    Refilled(b, cap, continued, stop)
  }

  function Rounded(b: Behaviour, cap: nat, s: State, stop: bool, ticket: nat): State
    requires s.inFlight != {} ==> ticket < |s.book|
  {
    Arrived(Submitted(Served(b, cap, s, stop, ticket)))
  }

  /** At the head of the loop: everything is submitted. */
  ghost predicate Head(b: Behaviour, cap: nat, s: State) {
    Inv(b, cap, s) && s.prepared == {} && (!s.failed ==> |s.inFlight| == |s.tasks|)
  }

  lemma ServedKeeps(b: Behaviour, cap: nat, s: State, stop: bool, ticket: nat)
    requires Head(b, cap, s) && s.inFlight != {} && ticket in s.inFlight
    ensures ticket < |s.book|
    ensures var u := Served(b, cap, s, stop, ticket);
            && Inv(b, cap, u) && Messages(u) == Messages(s) && u.future == Arrived(s).future
            && |u.inFlight| == |s.inFlight| - 1 && Work(b, u) < Work(b, Arrived(s))
  {
    ArrivedKeeps(s);
    ContinuedKeeps(b, cap, Arrived(s), ticket);
    RefilledKeeps(b, cap, Continued(b, Arrived(s), ticket), stop);
  }

  lemma ServedIdle(b: Behaviour, cap: nat, s: State, stop: bool, ticket: nat)
    requires Head(b, cap, s) && s.inFlight == {}
    ensures var u := Served(b, cap, s, stop, ticket);
            && Inv(b, cap, u) && Messages(u) == Messages(s) && u.future == Arrived(s).future && u.inFlight == {}
            && (Work(b, u) < Work(b, Arrived(s)) || (u == Arrived(s) && (stop || u.failed || u.queue == [])))
  {
    ArrivedKeeps(s);
    RefilledKeeps(b, cap, Arrived(s), stop);
  }

  lemma {:induction false} EmplacedSocket(b: Behaviour, cap: nat, s: State)
    ensures Emplaced(b, cap, s).inFlight == s.inFlight
    decreases |s.queue|
  {
    if s.queue != [] { EmplacedSocket(b, cap, Started(b, s)); }
  }

  /** The loop keeps its invariant, loses no message, counts the requests in flight, and comes closer to its end. */
  lemma RoundedKeeps(b: Behaviour, cap: nat, s: State, stop: bool, ticket: nat)
    requires Head(b, cap, s) && (s.inFlight != {} ==> ticket in s.inFlight)
    ensures s.inFlight != {} ==> ticket < |s.book|
    ensures var u := Rounded(b, cap, s, stop, ticket);
            && Head(b, cap, u) && Messages(u) == Messages(s)
            && |u.inFlight| + (if s.inFlight != {} then 1 else 0) == |s.inFlight| + |Served(b, cap, s, stop, ticket).prepared|
            && (|u.future| < |s.future|
                || (u.future == s.future == []
                    && (Work(b, u) < Work(b, s)
                        || (u == s && s.inFlight == {} && (stop || u.failed || u.queue == [])))))
  {
    if s.inFlight != {} { ServedKeeps(b, cap, s, stop, ticket); } else { ServedIdle(b, cap, s, stop, ticket); }
    var served := Served(b, cap, s, stop, ticket);
    SubmittedKeeps(b, cap, served);
    ArrivedKeeps(s);
    ArrivedKeeps(Submitted(served));
  }

  // ---------------------------------------------------------------------------------------------
  // The socket
  // ---------------------------------------------------------------------------------------------

  /** Requests are prepared, then submitted, then completed in any order, each once. */
  class Socket {
    var prepared: set<nat>
    var inFlight: set<nat>

    constructor ()
      ensures prepared == {} && inFlight == {}
    {
      prepared, inFlight := {}, {};
    }

    method Prepare(ticket: nat)
      modifies this`prepared
      ensures prepared == old(prepared) + {ticket}
    {
      prepared := prepared + {ticket};
    }

    /** All prepared requests are accepted; the result is how many. */
    method Submit() returns (accepted: nat)
      modifies this
      ensures prepared == {} && inFlight == old(inFlight) + old(prepared) && accepted == |old(prepared)|
    {
      accepted := |prepared|;
      prepared, inFlight := {}, inFlight + prepared;
    }

    method Complete() returns (ticket: nat)
      requires inFlight != {}
      modifies this`inFlight
      ensures ticket in old(inFlight) && inFlight == old(inFlight) - {ticket}
    {
      ticket :| ticket in inFlight;
      inFlight := inFlight - {ticket};
    }
  }

  // ---------------------------------------------------------------------------------------------
  // The sender
  // ---------------------------------------------------------------------------------------------

  class SendReceiver {
    const behaviour: Behaviour
    const concurrentRequests: nat
    const socket: Socket
    var queue: seq<nat>
    var future: seq<seq<nat>>
    var tasks: seq<nat>
    var book: seq<Ticket>
    var finishes: seq<nat>
    var stopDaemon: bool
    var failed: bool

    ghost function Value(): State
      reads this, socket
    {
      State(queue, future, tasks, book, finishes, failed, socket.prepared, socket.inFlight)
    }

    ghost predicate Valid()
      reads this, socket
    {
      Inv(behaviour, concurrentRequests, Value())
    }

    constructor (behaviour: Behaviour, concurrentRequests: nat, queue: seq<nat>, future: seq<seq<nat>>)
      requires Sensible(behaviour) && concurrentRequests > 0
      ensures Valid() && fresh(socket) && Value() == State(queue, future, [], [], [], false, {}, {})
      ensures this.behaviour == behaviour && this.concurrentRequests == concurrentRequests
    {
      this.behaviour, this.concurrentRequests := behaviour, concurrentRequests;
      this.queue, this.future := queue, future;
      socket := new Socket();
      tasks, book, finishes := [], [], [];
      stopDaemon, failed := false, false;
    }

    /** Another thread submits a batch. */
    method Arrive()
      modifies this`queue, this`future
      ensures Value() == Arrived(old(Value()))
    {
      if future != [] {
        queue, future := queue + future[0], future[1..];
      }
    }

    /** `finish` of a message: its callback, if it has one. */
    method Finish(ticket: nat)
      requires ticket < |book| && Over(book[ticket].status)
      modifies this`finishes
      ensures finishes == Finishing(behaviour, old(finishes), ticket, book[ticket])
    {
      if behaviour.callback(book[ticket].message) {
        finishes := finishes + [ticket];
      }
    }

    /** One message is taken from the queue, executed, and kept if it has a request with the socket. */
    method Dequeue()
      requires queue != []
      modifies this`queue, this`tasks, this`book, this`finishes, this`failed, socket`prepared
      ensures Value() == Started(behaviour, old(Value()))
    {
      var ticket := |book|;
      var t := Ticket(queue[0], 1, StatusAfter(behaviour, queue[0], 1));
      queue, book := queue[1..], book + [t];
      if t.status == Thrown {
        failed := true;
      } else if Over(t.status) {
        Finish(ticket);
      } else {
        socket.Prepare(ticket);
        tasks := tasks + [ticket];
      }
    }

    /** `emplaceNewRequest`, `emplaceLocalRequest`: starts queued messages until the queue is empty, enough tasks are
        alive, or an exception is thrown. */
    method Emplace()
      modifies this`queue, this`tasks, this`book, this`finishes, this`failed, socket`prepared
      ensures Value() == Emplaced(behaviour, concurrentRequests, old(Value()))
    {
      while queue != []
        invariant Emplaced(behaviour, concurrentRequests, Value()) == Emplaced(behaviour, concurrentRequests, old(Value()))
        decreases |queue|
      {
        Dequeue();
        if failed || |tasks| >= concurrentRequests {
          return;
        }
      }
    }

    /** A completion: the task it belongs to is executed once more, and leaves the list when it is over. */
    method Continue() returns (ticket: nat)
      requires socket.inFlight != {} && forall t :: t in socket.inFlight ==> t < |book|
      modifies this`tasks, this`book, this`finishes, this`failed, socket
      ensures ticket in old(socket.inFlight) && ticket < |book| && Value() == Continued(behaviour, old(Value()), ticket)
    {
      ticket := socket.Complete();
      var t := Next(behaviour, book[ticket]);
      book := book[ticket := t];
      if t.status == Thrown {
        failed := true;
      } else if Over(t.status) {
        Finish(ticket);
        Erase(ticket);
      } else {
        socket.Prepare(ticket);
      }
    }

    method Erase(ticket: nat)
      modifies this`tasks
      ensures tasks == Without(old(tasks), ticket)
    {
      var i, list := 0, tasks;
      while i < |list| && list[i] != ticket
        invariant 0 <= i <= |list| && ticket !in list[..i]
      {
        assert list[..i + 1] == list[..i] + [list[i]];
        i := i + 1;
      }
      WithoutAt(list, ticket, i);
      if i < |list| {
        tasks := list[..i] + list[i + 1..];
      }
    }

    /** The round up to the submission. */
    method Serve(count: nat) returns (inFlight: int, ghost ticket: nat)
      requires count == |socket.inFlight| && forall t :: t in socket.inFlight ==> t < |book|
      modifies this`queue, this`future, this`tasks, this`book, this`finishes, this`failed, socket
      ensures old(socket.inFlight) != {} ==> ticket in old(socket.inFlight)
      ensures Value() == Served(behaviour, concurrentRequests, old(Value()), stopDaemon, ticket)
      ensures inFlight == count - (if count > 0 then 1 else 0)
    {
      inFlight, ticket := count, 0;
      Arrive();
      if count > 0 {
        ticket := Continue();
        inFlight := inFlight - 1;
      }
      Refill();
    }

    method Refill()
      modifies this`queue, this`tasks, this`book, this`finishes, this`failed, socket`prepared
      ensures Value() == Refilled(behaviour, concurrentRequests, old(Value()), stopDaemon)
    {
      if !stopDaemon && |tasks| < concurrentRequests && !failed {
        Emplace();
      }
    }

    /** One round of the loop; `count` is the number of requests in flight. */
    method Round(count: nat) returns (inFlight: int, ghost ticket: nat)
      requires count == |socket.inFlight| && forall t :: t in socket.inFlight ==> t < |book|
      modifies this`queue, this`future, this`tasks, this`book, this`finishes, this`failed, socket
      ensures old(socket.inFlight) != {} ==> ticket in old(socket.inFlight)
      ensures Value() == Rounded(behaviour, concurrentRequests, old(Value()), stopDaemon, ticket)
      ensures inFlight == count - (if count > 0 then 1 else 0)
                          + |Served(behaviour, concurrentRequests, old(Value()), stopDaemon, ticket).prepared|
    {
      inFlight, ticket := Serve(count);
      var accepted := socket.Submit();
      inFlight := inFlight + accepted;
      Arrive();
    }

    /** A round keeps what holds at the head of the loop, and comes closer to its end. */
    method CountedRound(count: nat) returns (inFlight: nat)
      requires Head(behaviour, concurrentRequests, Value()) && count == |socket.inFlight|
      modifies this`queue, this`future, this`tasks, this`book, this`finishes, this`failed, socket
      ensures Head(behaviour, concurrentRequests, Value()) && Messages(Value()) == old(Messages(Value()))
      ensures inFlight == |socket.inFlight|
      ensures || |future| < |old(future)|
              || (future == old(future) == [] && Work(behaviour, Value()) < old(Work(behaviour, Value())))
              || (Value() == old(Value()) && future == [] && count == 0 && (stopDaemon || failed || queue == []))
    {
      ghost var s := Value();
      InFlightKnown(behaviour, concurrentRequests, s);
      var n, ticket := Round(count);
      RoundedKeeps(behaviour, concurrentRequests, s, stopDaemon, ticket);
      inFlight := n;
    }

    /** `sendReceive`: until the queue is empty and nothing is in flight, or, when it is not meant to end by itself,
        until another thread stops it in round `stopRound`. */
    method SendReceive(oneQueueInvocation: bool, stopRound: nat) returns (threw: bool)
      requires Head(behaviour, concurrentRequests, Value()) && tasks == [] && !failed
      modifies this, socket
      ensures Head(behaviour, concurrentRequests, Value()) && socket.inFlight == {}
      ensures Messages(Value()) == old(Messages(Value())) && threw == failed
      ensures !threw ==> tasks == [] && forall t: nat :: t < |book| ==>
                Over(book[t].status) && multiset(finishes)[t] == if behaviour.callback(book[t].message) then 1 else 0
      ensures oneQueueInvocation && !threw ==> queue == []
      ensures threw ==> ThrownIn(book)
      ensures old(future) == [] ==> future == []
    {
      stopDaemon := false;
      var count: int, round: nat := 0, 0;
      while !stopDaemon || count > 0
        invariant Head(behaviour, concurrentRequests, Value()) && Messages(Value()) == old(Messages(Value()))
        invariant count == |socket.inFlight| && (old(future) == [] ==> future == [])
        invariant stopDaemon && oneQueueInvocation ==> count == 0 && (failed || queue == [])
        decreases |future|, Work(behaviour, Value()), if round < stopRound then stopRound - round else 0, if stopDaemon then 0 else 1
      {
        count := CountedRound(count);
        if oneQueueInvocation && (queue == [] || failed) && count == 0 {
          stopDaemon := true;
        }
        if !oneQueueInvocation && round >= stopRound {
          stopDaemon := true;
        }
        round := round + 1;
      }
      threw := failed;
      NoneLeft(behaviour, concurrentRequests, Value());
    }
  }

  /** Without requests in flight, and without an exception, every message that was dequeued has been executed until its task
      was over, and its callback, if it has one, was made exactly once. */
  lemma NoneLeft(b: Behaviour, cap: nat, s: State)
    requires Inv(b, cap, s) && s.prepared == s.inFlight == {}
    ensures |Dequeued(s.book)| == |s.book| && forall t: nat :: t < |s.book| ==> Dequeued(s.book)[t] == s.book[t].message
    ensures !s.failed ==> s.tasks == [] && forall t: nat :: t < |s.book| ==>
              && Over(s.book[t].status) && s.book[t].status == b.end(s.book[t].message) && s.book[t].rounds == b.need(s.book[t].message)
              && multiset(s.finishes)[t] == if b.callback(s.book[t].message) then 1 else 0
  {
    DequeuedInOrder(s.book);
    if !s.failed {
      FlyingAreTasks(s.book, s.tasks, s.inFlight);
      forall t: nat | t < |s.book|
        ensures Over(s.book[t].status) && s.book[t].status == b.end(s.book[t].message) && s.book[t].rounds == b.need(s.book[t].message)
        ensures multiset(s.finishes)[t] == if b.callback(s.book[t].message) then 1 else 0
      {
        assert TicketOk(b, s.book[t], s.failed) && RequestOk(s.book, s.prepared, s.inFlight, t);
        assert FinishOk(b, s.book, s.finishes, t);
        CountOnce(s.finishes, t);
      }
    }
  }

  lemma {:induction false} DequeuedInOrder(book: seq<Ticket>)
    ensures |Dequeued(book)| == |book| && forall t: nat :: t < |book| ==> Dequeued(book)[t] == book[t].message
  {
    if book != [] { DequeuedInOrder(book[..|book| - 1]); }
  }

  lemma {:induction false} CountOnce(s: seq<nat>, x: nat)
    requires NoDuplicates(s)
    ensures multiset(s)[x] == if x in s then 1 else 0
  {
    if s != [] {
      CountOnce(s[1..], x);
      assert s == [s[0]] + s[1..];
    }
  }

  /** Any number of rounds, with any choice of the request that completes next, and stopped at any time; a choice that is not
      in flight ends the run. */
  ghost function AfterRounds(b: Behaviour, cap: nat, s: State, moves: seq<(bool, nat)>): State
    requires Head(b, cap, s)
    decreases |moves|
  {
    if moves == [] || (s.inFlight != {} && moves[0].1 !in s.inFlight) then s
    else
      RoundedKeeps(b, cap, s, moves[0].0, moves[0].1);
      AfterRounds(b, cap, Rounded(b, cap, s, moves[0].0, moves[0].1), moves[1..])
  }

  /** At the head of every round: without an exception, the requests in flight are as many as the tasks alive, at most the
      limit; every message is dequeued, queued or still to come; and each callback that was made was made once, for a task that is over. */
  lemma {:induction false} HeadOfEveryRound(b: Behaviour, cap: nat, queue: seq<nat>, future: seq<seq<nat>>, moves: seq<(bool, nat)>)
    requires Sensible(b) && cap > 0
    ensures Head(b, cap, State(queue, future, [], [], [], false, {}, {}))
    ensures var s := AfterRounds(b, cap, State(queue, future, [], [], [], false, {}, {}), moves);
            && (!s.failed ==> |s.inFlight| == |s.tasks|) && |s.tasks| <= cap
            && Dequeued(s.book) + s.queue + Joined(s.future) == queue + Joined(future)
            && forall t: nat :: multiset(s.finishes)[t] ==
                 if t < |s.book| && Over(s.book[t].status) && b.callback(s.book[t].message) then 1 else 0
  {
    var start := State(queue, future, [], [], [], false, {}, {});
    RoundsKeep(b, cap, start, moves);
    var s := AfterRounds(b, cap, start, moves);
    forall t: nat
      ensures multiset(s.finishes)[t] ==
                if t < |s.book| && Over(s.book[t].status) && b.callback(s.book[t].message) then 1 else 0
    {
      FinishedOnce(b, s, t);
    }
    StartMessages(start);
  }

  lemma StartMessages(s: State)
    requires s.book == []
    ensures Messages(s) == s.queue + Joined(s.future)
  {
    assert Dequeued([]) + s.queue == s.queue;
  }

  lemma FinishedOnce(b: Behaviour, s: State, t: nat)
    requires FinishesOk(b, s.book, s.finishes)
    ensures multiset(s.finishes)[t] ==
              if t < |s.book| && Over(s.book[t].status) && b.callback(s.book[t].message) then 1 else 0
  {
    assert FinishOk(b, s.book, s.finishes, t);
    CountOnce(s.finishes, t);
  }

  lemma {:induction false} RoundsKeep(b: Behaviour, cap: nat, s: State, moves: seq<(bool, nat)>)
    requires Head(b, cap, s)
    ensures Head(b, cap, AfterRounds(b, cap, s, moves)) && Messages(AfterRounds(b, cap, s, moves)) == Messages(s)
    decreases |moves|
  {
    if moves != [] && (s.inFlight == {} || moves[0].1 in s.inFlight) {
      RoundedKeeps(b, cap, s, moves[0].0, moves[0].1);
      RoundsKeep(b, cap, Rounded(b, cap, s, moves[0].0, moves[0].1), moves[1..]);
    }
  }

  /** Once the loop has been stopped no message leaves the queue any more, in any number of rounds: those that fly are continued,
      and what other threads add stays queued. */
  lemma {:induction false} StoppedStartsNothing(b: Behaviour, cap: nat, s: State, moves: seq<(bool, nat)>)
    requires Head(b, cap, s) && forall i :: 0 <= i < |moves| ==> moves[i].0
    ensures var u := AfterRounds(b, cap, s, moves);
            && |u.book| == |s.book| && Dequeued(u.book) == Dequeued(s.book)
            && s.queue <= u.queue && u.queue + Joined(u.future) == s.queue + Joined(s.future)
    decreases |moves|
  {
    if moves != [] && (s.inFlight == {} || moves[0].1 in s.inFlight) {
      RoundedKeeps(b, cap, s, moves[0].0, moves[0].1);
      StoppedRound(b, cap, s, moves[0].1);
      StoppedStartsNothing(b, cap, Rounded(b, cap, s, true, moves[0].1), moves[1..]);
    }
  }

  lemma StoppedRound(b: Behaviour, cap: nat, s: State, ticket: nat)
    requires Head(b, cap, s) && (s.inFlight != {} ==> ticket in s.inFlight && ticket < |s.book|)
    ensures var u := Rounded(b, cap, s, true, ticket);
            && |u.book| == |s.book| && Dequeued(u.book) == Dequeued(s.book)
            && s.queue <= u.queue && u.queue + Joined(u.future) == s.queue + Joined(s.future)
  {
    var arrived, served := Arrived(s), Served(b, cap, s, true, ticket);
    ArrivedJoins(s);
    ArrivedJoins(Submitted(served));
    if s.inFlight != {} { DequeuedUpdate(s.book, ticket, Next(b, s.book[ticket])); }
    assert served.queue == arrived.queue && served.future == arrived.future;
  }

  lemma ArrivedJoins(s: State)
    ensures var u := Arrived(s);
            u.book == s.book && s.queue <= u.queue && u.queue + Joined(u.future) == s.queue + Joined(s.future)
  {
    if s.future != [] {
      assert (s.queue + s.future[0]) + Joined(s.future[1..]) == s.queue + (s.future[0] + Joined(s.future[1..]));
    }
  }
}
