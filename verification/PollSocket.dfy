/** Waiting for descriptors with poll: src/network/poll_socket.cpp. A request is known by a number. */
module PollSockets {
  import opened Options
  import opened Words

  const ECONNRESET := 104
  const ETIMEDOUT := 110

  /** A `pollfd`, with what poll reported for it. */
  datatype Poll = Poll(fd: int, wantsWrite: bool, failed: bool, writable: bool, readable: bool)

  datatype Pending = Pending(request: nat, deadline: int)

  datatype Ready = Ready(request: nat, fd: int, length: int)

  /** The kernel during one call of `submit`: what poll returns, the clock, and what send or recv on a descriptor returns. */
  datatype Kernel = Kernel(n: int, now: int, transfer: int -> int)

  /** The new length of a request that is ready; None when it has to wait on. */
  function Outcome(k: Kernel, p: Poll, pending: Pending): Option<int> {
    if p.failed then Some(-ECONNRESET)
    else if p.writable then Some(k.transfer(p.fd))
    else if p.readable then Some(k.transfer(p.fd))
    else if k.n == 0 && k.now >= pending.deadline then Some(-ETIMEDOUT)
    else None
  }

  function WithoutBySwap(polls: seq<Poll>, i: nat): seq<Poll>
    requires i < |polls|
  {
    polls[i := polls[|polls| - 1]][..|polls| - 1]
  }

  datatype Result = Result(polls: seq<Poll>, requests: map<int, Pending>, ready: seq<Ready>)

  /** The loop of `submit` from index `i` on. After a removal the index is the same. */
  function Processed(k: Kernel, s: Result, i: nat): Result
    requires i <= |s.polls|
    decreases |s.polls| - i
  {
    if i == |s.polls| then s
    else
      var p := s.polls[i];
      var rest := WithoutBySwap(s.polls, i);
      if p.fd !in s.requests then Processed(k, s.(polls := rest), i)
      else
        var pending := s.requests[p.fd];
        match Outcome(k, p, pending)
        case None => Processed(k, s, i + 1)
        case Some(length) =>
          Processed(k, Result(rest, s.requests - {p.fd}, s.ready + [Ready(pending.request, p.fd, length)]), i)
  }

  // ---------------------------------------------------------------------------------------------
  // Conservation
  // ---------------------------------------------------------------------------------------------

  /** One request per descriptor: the array and the map hold the same descriptors, each once. */
  ghost predicate Paired(polls: seq<Poll>, requests: map<int, Pending>) {
    && (forall i, j :: 0 <= i < j < |polls| ==> polls[i].fd != polls[j].fd)
    && (forall i :: 0 <= i < |polls| ==> polls[i].fd in requests)
    && (forall fd :: fd in requests ==> HasFd(polls, fd))
  }

  ghost predicate HasFd(polls: seq<Poll>, fd: int) {
    exists i :: 0 <= i < |polls| && polls[i].fd == fd
  }

  ghost predicate Done(k: Kernel, requests: map<int, Pending>, p: Poll) {
    p.fd in requests && Outcome(k, p, requests[p.fd]).Some?
  }

  ghost function Completion(k: Kernel, requests: map<int, Pending>, p: Poll): Ready
    requires Done(k, requests, p)
  {
    Ready(requests[p.fd].request, p.fd, Outcome(k, p, requests[p.fd]).value)
  }

  lemma SwapPaired(polls: seq<Poll>, i: nat, requests: map<int, Pending>)
    requires i < |polls| && Paired(polls, requests)
    ensures Paired(WithoutBySwap(polls, i), requests - {polls[i].fd})
    ensures forall p :: p in WithoutBySwap(polls, i) <==> p in polls && p != polls[i]
    ensures forall p :: p in WithoutBySwap(polls, i)[i..] <==> p in polls[i..] && p != polls[i]
  {
    var n, rest, fd := |polls| - 1, WithoutBySwap(polls, i), polls[i].fd;
    forall f | f in requests - {fd}
      ensures HasFd(rest, f)
    {
      var j :| 0 <= j < |polls| && polls[j].fd == f;
      assert rest[if j == n then i else j].fd == f;
    }
    forall p
      ensures p in rest <==> p in polls && p != polls[i]
      ensures p in rest[i..] <==> p in polls[i..] && p != polls[i]
    {
      SwapContents(polls, i, 0, p);
      SwapContents(polls, i, i, p);
      assert rest[0..] == rest && polls[0..] == polls;
    }
  }

  /** The swap takes one element out, seen from any index up to the place of the swap. */
  lemma SwapContents(polls: seq<Poll>, i: nat, from: nat, p: Poll)
    requires from <= i < |polls| && forall a, b :: 0 <= a < b < |polls| ==> polls[a].fd != polls[b].fd
    ensures p in WithoutBySwap(polls, i)[from..] <==> p in polls[from..] && p != polls[i]
  {
    var n, rest := |polls| - 1, WithoutBySwap(polls, i);
    if p in polls[from..] && p != polls[i] {
      var j :| from <= j < |polls| && polls[j] == p;
      assert rest[from..][(if j == n then i else j) - from] == p;
    }
    if p in rest[from..] {
      var j :| from <= j < |rest| && rest[j] == p;
      assert polls[from..][(if j == i then n else j) - from] == p;
    }
  }

  /** The three ways the loop goes on. */
  lemma ProcessedStep(k: Kernel, s: Result, i: nat)
    requires i < |s.polls| && s.polls[i].fd in s.requests
    ensures Processed(k, s, i) ==
            match Outcome(k, s.polls[i], s.requests[s.polls[i].fd])
            case None => Processed(k, s, i + 1)
            case Some(length) => Processed(k, AfterReady(s, i, length), i)
  {
  }

  /** The state after the request at index `i` has become ready. */
  function AfterReady(s: Result, i: nat, length: int): Result
    requires i < |s.polls| && s.polls[i].fd in s.requests
  {
    var p := s.polls[i];
    Result(WithoutBySwap(s.polls, i), s.requests - {p.fd}, s.ready + [Ready(s.requests[p.fd].request, p.fd, length)])
  }

  /** The pairing is kept, nothing is lost or made up, and earlier completions stay. */
  lemma {:induction false} PairedStays(k: Kernel, s: Result, i: nat)
    requires i <= |s.polls| && Paired(s.polls, s.requests)
    ensures var r := Processed(k, s, i);
            Paired(r.polls, r.requests) && |r.polls| + |r.ready| == |s.polls| + |s.ready| && s.ready <= r.ready
    decreases |s.polls| - i
  {
    if i < |s.polls| {
      ProcessedStep(k, s, i);
      match Outcome(k, s.polls[i], s.requests[s.polls[i].fd])
      case None => PairedStays(k, s, i + 1);
      case Some(length) =>
        SwapPaired(s.polls, i, s.requests);
        PairedStays(k, AfterReady(s, i, length), i);
    }
  }

  /** A descriptor stays in the array, with its request, exactly when its request is not ready. */
  lemma {:induction false} Remaining(k: Kernel, s: Result, i: nat, p: Poll)
    requires i <= |s.polls| && Paired(s.polls, s.requests)
    ensures var r := Processed(k, s, i);
            && (p in r.polls <==> p in s.polls && !(p in s.polls[i..] && Done(k, s.requests, p)))
            && (p in r.polls ==> p.fd in r.requests && p.fd in s.requests && r.requests[p.fd] == s.requests[p.fd])
    decreases |s.polls| - i
  {
    if i < |s.polls| {
      var q := s.polls[i];
      ProcessedStep(k, s, i);
      assert s.polls[i..] == [q] + s.polls[i + 1..];
      match Outcome(k, q, s.requests[q.fd])
      case None => Remaining(k, s, i + 1, p);
      case Some(length) =>
        SwapPaired(s.polls, i, s.requests);
        Remaining(k, AfterReady(s, i, length), i, p);
        if p in s.polls && p != q { OtherAlike(k, s, i, p); }
    }
  }

  /** Removing one descriptor does not change what happens to another. */
  lemma OtherAlike(k: Kernel, s: Result, i: nat, p: Poll)
    requires i < |s.polls| && Paired(s.polls, s.requests) && p in s.polls && p != s.polls[i]
    ensures var less := s.requests - {s.polls[i].fd};
            && p.fd in less && (Done(k, less, p) <==> Done(k, s.requests, p))
            && (Done(k, s.requests, p) ==> Completion(k, less, p) == Completion(k, s.requests, p))
  {
  }

  /** What is ready is reported with its outcome... */
  lemma {:induction false} ReadyReported(k: Kernel, s: Result, i: nat, p: Poll)
    requires i <= |s.polls| && Paired(s.polls, s.requests) && p in s.polls[i..] && Done(k, s.requests, p)
    ensures Completion(k, s.requests, p) in Processed(k, s, i).ready
    decreases |s.polls| - i
  {
    var q := s.polls[i];
    ProcessedStep(k, s, i);
    assert s.polls[i..] == [q] + s.polls[i + 1..];
    match Outcome(k, q, s.requests[q.fd])
    case None => ReadyReported(k, s, i + 1, p);
    case Some(length) =>
      var u := AfterReady(s, i, length);
      SwapPaired(s.polls, i, s.requests);
      if p == q {
        PairedStays(k, u, i);
        assert u.ready[|s.ready|] == Completion(k, s.requests, p);
        assert Processed(k, u, i).ready[|s.ready|] == u.ready[|s.ready|];
      } else {
        assert p in s.polls;
        OtherAlike(k, s, i, p);
        ReadyReported(k, u, i, p);
      }
  }

  /** ... and nothing else is reported. */
  lemma {:induction false} ReportedIsReady(k: Kernel, s: Result, i: nat, c: Ready) returns (p: Poll)
    requires i <= |s.polls| && Paired(s.polls, s.requests) && c in Processed(k, s, i).ready && c !in s.ready
    ensures p in s.polls[i..] && Done(k, s.requests, p) && c == Completion(k, s.requests, p)
    decreases |s.polls| - i
  {
    var q := s.polls[i];
    ProcessedStep(k, s, i);
    assert s.polls[i..] == [q] + s.polls[i + 1..];
    match Outcome(k, q, s.requests[q.fd])
    case None => p := ReportedIsReady(k, s, i + 1, c);
    case Some(length) =>
      var u := AfterReady(s, i, length);
      SwapPaired(s.polls, i, s.requests);
      if c in u.ready {
        p := q;
      } else {
        p := ReportedIsReady(k, u, i, c);
        assert p in s.polls;
        OtherAlike(k, s, i, p);
      }
  }

  /** No descriptor is reported twice, or reported and kept. */
  lemma {:induction false} ReportedOnce(k: Kernel, s: Result, i: nat)
    requires i <= |s.polls| && Paired(s.polls, s.requests) && FdsApart(s.ready, s.requests)
    ensures FdsApart(Processed(k, s, i).ready, Processed(k, s, i).requests)
    decreases |s.polls| - i
  {
    if i < |s.polls| {
      ProcessedStep(k, s, i);
      match Outcome(k, s.polls[i], s.requests[s.polls[i].fd])
      case None => ReportedOnce(k, s, i + 1);
      case Some(length) =>
        SwapPaired(s.polls, i, s.requests);
        ReportedOnce(k, AfterReady(s, i, length), i);
    }
  }

  ghost predicate FdsApart(ready: seq<Ready>, requests: map<int, Pending>) {
    && (forall a, b :: 0 <= a < b < |ready| ==> ready[a].fd != ready[b].fd)
    && (forall a :: 0 <= a < |ready| ==> ready[a].fd !in requests)
  }

  /** One call of `submit`, with one request per descriptor, splits the requests into those that are ready, each reported once
      with its outcome, and those that wait on with their descriptors. */
  lemma SubmitSplits(k: Kernel, polls: seq<Poll>, requests: map<int, Pending>)
    requires Paired(polls, requests)
    ensures var r := Processed(k, Result(polls, requests, []), 0);
            && Paired(r.polls, r.requests) && FdsApart(r.ready, r.requests) && |r.polls| + |r.ready| == |polls|
            && (forall p :: p in r.polls <==> p in polls && !Done(k, requests, p))
            && (forall p :: p in r.polls ==> r.requests[p.fd] == requests[p.fd])
            && (forall p :: p in polls && Done(k, requests, p) ==> Completion(k, requests, p) in r.ready)
            && (forall c :: c in r.ready ==> exists p :: p in polls && Done(k, requests, p) && c == Completion(k, requests, p))
  {
    var s := Result(polls, requests, []);
    var r := Processed(k, s, 0);
    assert polls[0..] == polls;
    PairedStays(k, s, 0);
    ReportedOnce(k, s, 0);
    forall p
      ensures p in r.polls <==> p in polls && !Done(k, requests, p)
      ensures p in r.polls ==> r.requests[p.fd] == requests[p.fd]
      ensures p in polls && Done(k, requests, p) ==> Completion(k, requests, p) in r.ready
    {
      Remaining(k, s, 0, p);
      if p in polls && Done(k, requests, p) { ReadyReported(k, s, 0, p); }
    }
    forall c | c in r.ready
      ensures exists p :: p in polls && Done(k, requests, p) && c == Completion(k, requests, p)
    {
      var p := ReportedIsReady(k, s, 0, c);
    }
  }

  /** What is reported, by cases: -104 (connection reset) for an error event, what send or recv returned for a descriptor that is
      ready, and -110 (timed out) when poll returned zero and the deadline has passed. A request with none of these waits on. */
  lemma ReportedLengths(k: Kernel, polls: seq<Poll>, requests: map<int, Pending>, p: Poll)
    requires Paired(polls, requests) && p in polls
    ensures var r, q := Processed(k, Result(polls, requests, []), 0), requests[p.fd];
            && (p.failed ==> Ready(q.request, p.fd, -104) in r.ready)
            && (!p.failed && (p.writable || p.readable) ==> Ready(q.request, p.fd, k.transfer(p.fd)) in r.ready)
            && (!p.failed && !p.writable && !p.readable && k.n == 0 && k.now >= q.deadline ==>
                  Ready(q.request, p.fd, -110) in r.ready)
            && (!p.failed && !p.writable && !p.readable && !(k.n == 0 && k.now >= q.deadline) <==> p in r.polls)
            && (p in r.polls ==> forall c :: c in r.ready ==> c.fd != p.fd)
  {
    SubmitSplits(k, polls, requests);
    if Done(k, requests, p) { assert Completion(k, requests, p) in Processed(k, Result(polls, requests, []), 0).ready; }
    forall c | c in Processed(k, Result(polls, requests, []), 0).ready && p in Processed(k, Result(polls, requests, []), 0).polls
      ensures c.fd != p.fd
    {
      var o :| o in polls && Done(k, requests, o) && c == Completion(k, requests, o);
      assert !Done(k, requests, p);
    }
  }

  /** A request on a free descriptor keeps the pairing. */
  lemma EnqueueKeeps(polls: seq<Poll>, requests: map<int, Pending>, p: Poll, pending: Pending)
    requires Paired(polls, requests) && p.fd !in requests
    ensures Paired(polls + [p], requests[p.fd := pending])
  {
    var after := polls + [p];
    forall fd | fd in requests[p.fd := pending]
      ensures HasFd(after, fd)
    {
      if fd == p.fd {
        assert after[|polls|].fd == fd;
      } else {
        var i :| 0 <= i < |polls| && polls[i].fd == fd;
        assert after[i].fd == fd;
      }
    }
  }

  ghost predicate Reports(r: Result, request: nat) {
    exists a :: 0 <= a < |r.ready| && r.ready[a].request == request
  }

  /** Without the pairing too, only requests in the map are ever reported. */
  lemma {:induction false} OnlyPendingReported(k: Kernel, s: Result, i: nat, request: nat)
    requires i <= |s.polls| && Forgotten(s, request)
    ensures Forgotten(Processed(k, s, i), request)
    decreases |s.polls| - i
  {
    if i < |s.polls| {
      var p := s.polls[i];
      var rest := WithoutBySwap(s.polls, i);
      if p.fd !in s.requests {
        OnlyPendingReported(k, s.(polls := rest), i, request);
      } else {
        var pending := s.requests[p.fd];
        match Outcome(k, p, pending)
        case None => OnlyPendingReported(k, s, i + 1, request);
        case Some(length) =>
          OnlyPendingReported(k, Result(rest, s.requests - {p.fd}, s.ready + [Ready(pending.request, p.fd, length)]), i, request);
      }
    }
  }

  /** A later call: another request, or `submit` with what poll reports. */
  datatype Call = Add(p: Poll, pending: Pending) | Wait(k: Kernel, reported: seq<Poll>)

  function After(s: Result, c: Call): Result {
    match c
    case Add(p, pending) => Result(s.polls + [p], s.requests[p.fd := pending], s.ready)
    case Wait(k, reported) =>
      if s.polls == [] then s
      else if k.n < 0 then s.(polls := reported)
      else Processed(k, Result(reported, s.requests, []), 0)
  }

  function AfterAll(s: Result, calls: seq<Call>): Result {
    if calls == [] then s else After(AfterAll(s, calls[..|calls| - 1]), calls[|calls| - 1])
  }

  ghost predicate Forgotten(s: Result, request: nat) {
    !Reports(s, request) && forall fd :: fd in s.requests ==> s.requests[fd].request != request
  }

  lemma {:induction false} StaysForgotten(s: Result, calls: seq<Call>, request: nat)
    requires Forgotten(s, request) && forall c :: c in calls && c.Add? ==> c.pending.request != request
    ensures Forgotten(AfterAll(s, calls), request)
    decreases |calls|
  {
    if calls != [] {
      var before, c := AfterAll(s, calls[..|calls| - 1]), calls[|calls| - 1];
      StaysForgotten(s, calls[..|calls| - 1], request);
      if c.Wait? && before.polls != [] && c.k.n >= 0 {
        OnlyPendingReported(c.k, Result(c.reported, before.requests, []), 0, request);
      }
    }
  }

  /** A second request on a descriptor replaces the first, which no later call reports. */
  lemma SecondReplacesFirst(s: Result, p: Poll, first: Pending, second: Pending, calls: seq<Call>)
    requires first.request != second.request && Forgotten(s, first.request)
    requires forall c :: c in calls && c.Add? ==> c.pending.request != first.request
    ensures !Reports(AfterAll(After(After(s, Add(p, first)), Add(p, second)), calls), first.request)
  {
    StaysForgotten(After(After(s, Add(p, first)), Add(p, second)), calls, first.request);
  }

  // ---------------------------------------------------------------------------------------------
  // The object
  // ---------------------------------------------------------------------------------------------

  class PollSocket {
    var polls: seq<Poll>
    var requests: map<int, Pending>
    var ready: seq<Ready>
    var readyFds: nat
    var submitted: nat

    constructor ()
      ensures polls == [] && requests == map[] && ready == [] && readyFds == 0 && submitted == 0
      ensures Paired(polls, requests)
    {
      polls, requests, ready, readyFds, submitted := [], map[], [], 0, 0;
    }

    method Enqueue(fd: int, write: bool, pending: Pending)
      modifies this`polls, this`requests, this`submitted
      ensures polls == old(polls) + [Poll(fd, write, false, false, false)] && requests == old(requests)[fd := pending]
      ensures submitted == old(submitted) + 1
      ensures old(Paired(polls, requests)) && fd !in old(requests) ==> Paired(polls, requests)
    {
      ghost var p := Poll(fd, write, false, false, false);
      if Paired(polls, requests) && fd !in requests { EnqueueKeeps(polls, requests, p, pending); }
      polls := polls + [Poll(fd, write, false, false, false)];
      requests := requests[fd := pending];
      submitted := submitted + 1;
    }

    method Complete() returns (r: Option<Ready>)
      modifies this`readyFds
      ensures r == if old(readyFds) < |ready| then Some(ready[old(readyFds)]) else None
      ensures readyFds == if old(readyFds) < |ready| then old(readyFds) + 1 else old(readyFds)
    {
      if readyFds >= |ready| {
        return None;
      }
      r := Some(ready[readyFds]);
      readyFds := readyFds + 1;
    }

    /** `submit`, with `reported` the array as poll leaves it. The index has 64 bits: after a removal it is stepped back, from
        zero to the largest number, and then forward again. Completions of an earlier call that were not read are gone. */
    method Submit(k: Kernel, reported: seq<Poll>) returns (n: int)
      requires |reported| == |polls| < WORD && forall i :: 0 <= i < |polls| ==> reported[i].fd == polls[i].fd
      modifies this
      ensures |old(polls)| == 0 ==> n == 0 && ready == old(ready) && readyFds == old(readyFds)
      ensures |old(polls)| > 0 && k.n < 0 ==> n == -1 && polls == reported && ready == old(ready) && requests == old(requests)
      ensures |old(polls)| > 0 && k.n >= 0 ==>
                && Result(polls, requests, ready) == Processed(k, Result(reported, old(requests), []), 0)
                && n == |ready| && readyFds == 0
    {
      if polls == [] {
        return 0;
      }
      polls := reported;
      if k.n < 0 {
        return -1;
      }
      ready, readyFds := [], 0;
      var i: nat := 0;
      while i < |polls|
        invariant i <= |polls| <= |reported| && readyFds == 0
        invariant Processed(k, Result(polls, requests, ready), i) == Processed(k, Result(reported, old(requests), []), 0)
        decreases |polls| - i
      {
        var p := polls[i];
        if p.fd !in requests {
          polls := WithoutBySwap(polls, i);
          i := Sub64(i, 1);
        } else {
          var pending := requests[p.fd];
          var outcome := Outcome(k, p, pending);
          if outcome.Some? {
            ready := ready + [Ready(pending.request, p.fd, outcome.value)];
            requests := requests - {p.fd};
            polls := WithoutBySwap(polls, i);
            i := Sub64(i, 1);
          }
        }
        i := Add64(i, 1);
      }
      n := |ready|;
    }
  }
}
