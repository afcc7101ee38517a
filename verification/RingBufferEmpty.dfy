/** `empty()` takes no lock: it loads the two committed counters one after the other, in an order
    the C++ expression leaves open, while other threads keep running. */
module RingBufferEmpty {
  import opened Options
  import opened Words
  import opened RingBuffer
  import opened RingBufferSafety
  import opened RingBufferTheorems

  /** `!(_insert.commited.load() - _seen.commited.load())`. */
  predicate EmptyVerdict(insCommited: nat, seenCommited: nat) {
    Sub64(insCommited, seenCommited) == 0
  }

  /** No committed element waits. */
  predicate IsEmpty<T>(s: State<T>) {
    s.insCommited == s.seenCommited
  }

  /** An element waits when `moves` have happened. */
  ghost predicate WaitsAfter<T(!new)>(s0: State<T>, moves: seq<Move<T>>) {
    0 < s0.size == |s0.buffer| && !IsEmpty(Run(s0, moves))
  }

  lemma VerdictIsEquality(a: nat, b: nat)
    requires a < WORD && b < WORD
    ensures EmptyVerdict(a, b) <==> a == b
  {
  }

  /** The committed counters never decrease, and one step moves at most one of them. */
  lemma OneCommitPerStep<T(!new)>(s: State<T>, q: Queue<T>, m: Move<T>)
    requires Inv(s, q) && NoWrap(s, m)
    ensures var s' := Next(s, m);
            && s.insCommited <= s'.insCommited && s.seenCommited <= s'.seenCommited
            && (s.insCommited == s'.insCommited || s.seenCommited == s'.seenCommited)
  {
    StepKeeps(s, q, m);
  }

  lemma {:induction false} CountersGrow<T(!new)>(s0: State<T>, a: seq<Move<T>>, b: seq<Move<T>>, s1: State<T>, s2: State<T>)
    requires RunOf(s0, a, s1) && RunOf(s0, a + b, s2)
    ensures s1.insCommited <= s2.insCommited && s1.seenCommited <= s2.seenCommited
  {
    if b == [] {
      assert a + b == a;
    } else {
      var c := b[..|b| - 1];
      assert (a + b)[..|a + b| - 1] == a + c;
      var mid := Run(s0, a + c);
      assert s2 == Next(mid, b[|b| - 1]) && NoWrapRun(s0, a + c) && NoWrap(mid, b[|b| - 1]);
      CountersGrow(s0, a, c, s1, mid);
      RunKeepsInv(s0, a + c, mid);
      OneCommitPerStep(mid, QueueOf(mid), b[|b| - 1]);
    }
  }

  /** With `_seen.commited` loaded first, "empty" means empty at the second load. */
  lemma SeenFirstEmpty<T(!new)>(s0: State<T>, a: seq<Move<T>>, b: seq<Move<T>>, s1: State<T>, s2: State<T>)
    requires RunOf(s0, a, s1) && RunOf(s0, a + b, s2)
    requires EmptyVerdict(s2.insCommited, s1.seenCommited)
    ensures IsEmpty(s2)
  {
    RunKeepsInv(s0, a, s1);
    RunKeepsInv(s0, a + b, s2);
    CountersGrow(s0, a, b, s1, s2);
    VerdictIsEquality(s2.insCommited, s1.seenCommited);
  }

  /** With `_seen.commited` loaded first, "not empty" means not empty at some moment in between. */
  lemma SeenFirstNonempty<T(!new)>(s0: State<T>, a: seq<Move<T>>, b: seq<Move<T>>, s1: State<T>, s2: State<T>)
    returns (k: nat)
    requires RunOf(s0, a, s1) && RunOf(s0, a + b, s2)
    requires !EmptyVerdict(s2.insCommited, s1.seenCommited)
    ensures k <= |b| && WaitsAfter(s0, a + b[..k])
  {
    RunKeepsInv(s0, a, s1);
    RunKeepsInv(s0, a + b, s2);
    CountersGrow(s0, a, b, s1, s2);
    VerdictIsEquality(s2.insCommited, s1.seenCommited);
    if !IsEmpty(s2) {
      k := |b|;
      assert b[..|b|] == b;
    } else {
      assert b == [] ==> a + b == a;
      k := LastNonempty(s0, a, b, s1, s2);
    }
  }

  lemma {:induction false} LastNonempty<T(!new)>(s0: State<T>, a: seq<Move<T>>, b: seq<Move<T>>, s1: State<T>, s2: State<T>)
    returns (k: nat)
    requires RunOf(s0, a, s1) && RunOf(s0, a + b, s2) && b != []
    requires IsEmpty(s2) && s2.insCommited > s1.seenCommited
    ensures k <= |b| && WaitsAfter(s0, a + b[..k])
    decreases |b|
  {
    var c := b[..|b| - 1];
    var mid := BackOne(s0, a, b, s2);
    if !IsEmpty(mid) {
      k := |b| - 1;
    } else {
      assert mid.insCommited == s2.insCommited;
      assert c == [] ==> a + c == a;
      k := LastNonempty(s0, a, c, s1, mid);
      PrefixOfPrefix(b, k);
    }
  }

  lemma PrefixOfPrefix<T(!new)>(b: seq<T>, k: nat)
    requires k < |b|
    ensures b[..|b| - 1][..k] == b[..k]
  {
  }

  lemma BackOne<T(!new)>(s0: State<T>, a: seq<Move<T>>, b: seq<Move<T>>, s2: State<T>) returns (mid: State<T>)
    requires RunOf(s0, a + b, s2) && b != []
    ensures RunOf(s0, a + b[..|b| - 1], mid) && mid.seenCommited <= mid.insCommited
    ensures mid.insCommited <= s2.insCommited && mid.seenCommited <= s2.seenCommited
    ensures mid.insCommited == s2.insCommited || mid.seenCommited == s2.seenCommited
  {
    var c := b[..|b| - 1];
    assert (a + b)[..|a + b| - 1] == a + c;
    mid := Run(s0, a + c);
    RunKeepsInv(s0, a + c, mid);
    OneCommitPerStep(mid, QueueOf(mid), b[|b| - 1]);
  }

  /** With `_insert.commited` loaded first, "empty" was true at the first load exactly if no other thread consumed in between, and
      at the second exactly if no other thread inserted. */
  lemma InsertFirstEmpty<T(!new)>(s0: State<T>, a: seq<Move<T>>, b: seq<Move<T>>, s1: State<T>, s2: State<T>)
    requires RunOf(s0, a, s1) && RunOf(s0, a + b, s2)
    requires EmptyVerdict(s1.insCommited, s2.seenCommited)
    ensures s1.seenCommited == s2.seenCommited <==> IsEmpty(s1)
    ensures s1.insCommited == s2.insCommited <==> IsEmpty(s2)
  {
    RunKeepsInv(s0, a, s1);
    RunKeepsInv(s0, a + b, s2);
    CountersGrow(s0, a, b, s1, s2);
    VerdictIsEquality(s1.insCommited, s2.seenCommited);
  }

  /** The counters when `moves` have happened: no insertion of the call is committed yet, or all its consumptions are. */
  ghost predicate ConsumedFirst<T(!new)>(s0: State<T>, moves: seq<Move<T>>, s1: State<T>, s2: State<T>) {
    && 0 < s0.size == |s0.buffer|
    && var s := Run(s0, moves); s.insCommited == s1.insCommited || s.seenCommited == s2.seenCommited
  }

  /** All consumptions of the call are committed, and none of its insertions is. */
  ghost predicate Turning<T(!new)>(s0: State<T>, moves: seq<Move<T>>, s1: State<T>, s2: State<T>) {
    && 0 < s0.size == |s0.buffer|
    && var s := Run(s0, moves); s.insCommited == s1.insCommited && s.seenCommited == s2.seenCommited
  }

  /** With `_insert.commited` loaded first, an answer "empty" was true at some moment of the call exactly when every consumption
      committed during the call comes before every insertion committed during it: then there is a moment when the former are all done
      and the latter have not begun. So it is right when nobody else consumes, or nobody else inserts, during the call. */
  lemma InsertFirstExact<T(!new)>(s0: State<T>, a: seq<Move<T>>, b: seq<Move<T>>, s1: State<T>, s2: State<T>)
    requires RunOf(s0, a, s1) && RunOf(s0, a + b, s2)
    requires EmptyVerdict(s1.insCommited, s2.seenCommited)
    ensures (exists k :: 0 <= k <= |b| && !WaitsAfter(s0, a + b[..k])) <==>
            (forall k :: 0 <= k <= |b| ==> ConsumedFirst(s0, a + b[..k], s1, s2))
    ensures (exists k :: 0 <= k <= |b| && !WaitsAfter(s0, a + b[..k])) <==>
            (exists k :: 0 <= k <= |b| && Turning(s0, a + b[..k], s1, s2))
    ensures s1.seenCommited == s2.seenCommited || s1.insCommited == s2.insCommited ==>
            exists k :: 0 <= k <= |b| && !WaitsAfter(s0, a + b[..k])
  {
    forall k | 0 <= k <= |b|
      ensures !WaitsAfter(s0, a + b[..k]) <==> Turning(s0, a + b[..k], s1, s2)
    {
      EmptyWhenTurning(s0, a, b, s1, s2, k);
    }
    if k :| 0 <= k <= |b| && Turning(s0, a + b[..k], s1, s2) {
      forall j | 0 <= j <= |b|
        ensures ConsumedFirst(s0, a + b[..j], s1, s2)
      {
        OrderedAround(s0, a, b, s1, s2, k, j);
      }
    }
    if forall k :: 0 <= k <= |b| ==> ConsumedFirst(s0, a + b[..k], s1, s2) {
      assert a + b[..0] == a;
      var k := TurningPoint(s0, a, b, s1, s2, 0);
    }
    if s1.seenCommited == s2.seenCommited || s1.insCommited == s2.insCommited {
      AloneIsOrdered(s0, a, b, s1, s2);
    }
  }

  /** During the call the counters lie between those at its ends. */
  lemma Between<T(!new)>(s0: State<T>, a: seq<Move<T>>, b: seq<Move<T>>, s1: State<T>, s2: State<T>, k: nat)
    requires RunOf(s0, a, s1) && RunOf(s0, a + b, s2) && k <= |b|
    ensures RunOf(s0, a + b[..k], Run(s0, a + b[..k]))
    ensures var s := Run(s0, a + b[..k]);
            && s1.insCommited <= s.insCommited <= s2.insCommited && s1.seenCommited <= s.seenCommited <= s2.seenCommited
            && s.seenCommited <= s.insCommited < WORD
  {
    var pre, post := b[..k], b[k..];
    PartsJoin(a, b, k, k);
    Cut(s0, a + pre, post, s2);
    CountersGrow(s0, a, pre, s1, Run(s0, a + pre));
    CountersGrow(s0, a + pre, post, Run(s0, a + pre), s2);
    RunKeepsInv(s0, a + pre, Run(s0, a + pre));
  }

  lemma EmptyWhenTurning<T(!new)>(s0: State<T>, a: seq<Move<T>>, b: seq<Move<T>>, s1: State<T>, s2: State<T>, k: nat)
    requires RunOf(s0, a, s1) && RunOf(s0, a + b, s2) && k <= |b| && EmptyVerdict(s1.insCommited, s2.seenCommited)
    ensures !WaitsAfter(s0, a + b[..k]) <==> Turning(s0, a + b[..k], s1, s2)
  {
    Between(s0, a, b, s1, s2, k);
    RunKeepsInv(s0, a, s1);
    RunKeepsInv(s0, a + b, s2);
    VerdictIsEquality(s1.insCommited, s2.seenCommited);
  }

  /** Before a turning point no insertion is committed, and after it every consumption is. */
  lemma OrderedAround<T(!new)>(s0: State<T>, a: seq<Move<T>>, b: seq<Move<T>>, s1: State<T>, s2: State<T>, k: nat, j: nat)
    requires RunOf(s0, a, s1) && RunOf(s0, a + b, s2) && k <= |b| && j <= |b| && Turning(s0, a + b[..k], s1, s2)
    ensures ConsumedFirst(s0, a + b[..j], s1, s2)
  {
    Between(s0, a, b, s1, s2, j);
    Between(s0, a, b, s1, s2, k);
    if j <= k {
      Later(s0, a, b, j, k, Run(s0, a + b[..j]), Run(s0, a + b[..k]));
    } else {
      Later(s0, a, b, k, j, Run(s0, a + b[..k]), Run(s0, a + b[..j]));
    }
  }

  lemma Later<T(!new)>(s0: State<T>, a: seq<Move<T>>, b: seq<Move<T>>, j: nat, k: nat, s: State<T>, t: State<T>)
    requires j <= k <= |b| && RunOf(s0, a + b[..j], s) && RunOf(s0, a + b[..k], t)
    ensures s.insCommited <= t.insCommited && s.seenCommited <= t.seenCommited
  {
    PartsJoin(a, b, j, k);
    CountersGrow(s0, a + b[..j], b[j..k], s, t);
  }

  lemma PartsJoin<T(!new)>(a: seq<T>, b: seq<T>, j: nat, k: nat)
    requires j <= k <= |b|
    ensures (a + b[..j]) + b[j..k] == a + b[..k] && (a + b[..j]) + b[j..] == a + b
  {
  }

  /** The last moment from `k` on before an insertion is committed. */
  lemma {:induction false} TurningPoint<T(!new)>(s0: State<T>, a: seq<Move<T>>, b: seq<Move<T>>, s1: State<T>, s2: State<T>, k: nat)
    returns (t: nat)
    requires RunOf(s0, a, s1) && RunOf(s0, a + b, s2) && k <= |b| && Run(s0, a + b[..k]).insCommited == s1.insCommited
    requires forall j :: 0 <= j <= |b| ==> ConsumedFirst(s0, a + b[..j], s1, s2)
    ensures t <= |b| && Turning(s0, a + b[..t], s1, s2)
    decreases |b| - k
  {
    t := k;
    if k == |b| {
      assert b[..k] == b;
    } else if Run(s0, a + b[..k + 1]).insCommited == s1.insCommited {
      t := TurningPoint(s0, a, b, s1, s2, k + 1);
    } else {
      assert ConsumedFirst(s0, a + b[..k + 1], s1, s2);
      OneMove(s0, a, b, s1, s2, k);
    }
  }

  lemma OneMove<T(!new)>(s0: State<T>, a: seq<Move<T>>, b: seq<Move<T>>, s1: State<T>, s2: State<T>, k: nat)
    requires RunOf(s0, a, s1) && RunOf(s0, a + b, s2) && k < |b|
    ensures var s, t := Run(s0, a + b[..k]), Run(s0, a + b[..k + 1]);
            s.insCommited == t.insCommited || s.seenCommited == t.seenCommited
  {
    Between(s0, a, b, s1, s2, k + 1);
    LastMove(s0, a, b[..k + 1], b[..k], Run(s0, a + b[..k + 1]));
  }

  lemma LastMove<T(!new)>(s0: State<T>, a: seq<Move<T>>, c: seq<Move<T>>, d: seq<Move<T>>, t: State<T>)
    requires RunOf(s0, a + c, t) && c != [] && d == c[..|c| - 1]
    ensures var s := Run(s0, a + d); s.insCommited == t.insCommited || s.seenCommited == t.seenCommited
  {
    var mid := BackOne(s0, a, c, t);
  }

  lemma AloneIsOrdered<T(!new)>(s0: State<T>, a: seq<Move<T>>, b: seq<Move<T>>, s1: State<T>, s2: State<T>)
    requires RunOf(s0, a, s1) && RunOf(s0, a + b, s2)
    requires s1.seenCommited == s2.seenCommited || s1.insCommited == s2.insCommited
    ensures exists k :: 0 <= k <= |b| && Turning(s0, a + b[..k], s1, s2)
  {
    if s1.seenCommited == s2.seenCommited {
      assert a + b[..0] == a;
      assert Turning(s0, a + b[..0], s1, s2);
    } else {
      assert b[..|b|] == b;
      assert Turning(s0, a + b[..|b|], s1, s2);
    }
  }

  /** With `_insert.commited` loaded first, "not empty" means not empty at some moment in between; and at both loads
      unless elements that came after the first load were consumed before the second. */
  lemma InsertFirstNonempty<T(!new)>(s0: State<T>, a: seq<Move<T>>, b: seq<Move<T>>, s1: State<T>, s2: State<T>)
    returns (k: nat)
    requires RunOf(s0, a, s1) && RunOf(s0, a + b, s2)
    requires !EmptyVerdict(s1.insCommited, s2.seenCommited)
    ensures k <= |b| && WaitsAfter(s0, a + b[..k])
    ensures s2.seenCommited <= s1.insCommited ==> !IsEmpty(s1) && !IsEmpty(s2)
  {
    RunKeepsInv(s0, a, s1);
    RunKeepsInv(s0, a + b, s2);
    CountersGrow(s0, a, b, s1, s2);
    VerdictIsEquality(s1.insCommited, s2.seenCommited);
    if s2.seenCommited < s1.insCommited {
      k := |b|;
      assert b[..|b|] == b;
    } else {
      assert b == [] ==> a + b == a;
      k := OvertakenAt(s0, a, b, s1, s2);
    }
  }

  /** The consumers pass a counter value only while an element beyond it waits. */
  lemma {:induction false} OvertakenAt<T(!new)>(s0: State<T>, a: seq<Move<T>>, b: seq<Move<T>>, s1: State<T>, s2: State<T>)
    returns (k: nat)
    requires RunOf(s0, a, s1) && RunOf(s0, a + b, s2) && b != []
    requires s1.seenCommited <= s1.insCommited < s2.seenCommited <= s2.insCommited
    ensures k <= |b| && WaitsAfter(s0, a + b[..k])
    decreases |b|
  {
    var c := b[..|b| - 1];
    var mid := BackOne(s0, a, b, s2);
    if mid.seenCommited <= s1.insCommited {
      k := |b| - 1;
    } else {
      assert c == [] ==> a + c == a;
      k := OvertakenAt(s0, a, c, s1, mid);
      PrefixOfPrefix(b, k);
    }
  }

  // ---------------------------------------------------------------------------------------------
  // The other order can be wrong
  // ---------------------------------------------------------------------------------------------

  predicate AtRest<T>(s: State<T>, t: Tid) {
    && s.insOwner.None? && s.seenOwner.None?
    && (t !in s.threads || s.threads[t].pc.Returned?)
  }

  lemma RunSnoc<T(!new)>(s: State<T>, ms: seq<Move<T>>, m: Move<T>)
    requires 0 < s.size == |s.buffer|
    ensures Run(s, ms + [m]) == Next(Run(s, ms), m)
    ensures NoWrapRun(s, ms + [m]) <==> NoWrapRun(s, ms) && NoWrap(Run(s, ms), m)
  {
    assert (ms + [m])[..|ms + [m]| - 1] == ms;
  }

  /** `moves` lead from `s` to `s'` without overflow. */
  ghost predicate Leads<T(!new)>(s: State<T>, moves: seq<Move<T>>, s': State<T>) {
    0 < s.size == |s.buffer| && NoWrapRun(s, moves) && s' == Run(s, moves)
  }

  lemma Then<T(!new)>(s: State<T>, moves: seq<Move<T>>, s': State<T>, t: Tid) returns (more: seq<Move<T>>, s'': State<T>)
    requires Leads(s, moves, s') && NoWrap(s', Step(t, false))
    ensures s'' == Next(s', Step(t, false)) && Leads(s, more, s'')
  {
    RunSnoc(s, moves, Step(t, false));
    more, s'' := moves + [Step(t, false)], Next(s', Step(t, false));
  }

  lemma SoloReserve<T(!new)>(s: State<T>, t: Tid, v: T) returns (moves: seq<Move<T>>, s': State<T>)
    requires Shape(s) && Chain(s) && AtRest(s, t) && s.insPending + 1 < WORD
    requires s.insPending < s.seenCommited + s.size
    ensures Leads(s, moves, s')
    ensures s' == s.(threads := s'.threads, insOwner := Some(t)) && t in s'.threads
    ensures s'.threads[t].op == Insert(v, false) && s'.threads[t].pc == InsReserve(s.insPending)
    ensures s'.threads.Keys == s.threads.Keys + {t}
  {
    var s3;
    moves, s3 := SoloLoad(s, t, v);
    RoomMeansFits(Insert(v, false), s.size, s.insPending, s.seenCommited);
    moves, s' := Then(s, moves, s3, t);
    assert s' == NextInsCheck(s3, t, s.seenCommited);
  }

  lemma SoloLoad<T(!new)>(s: State<T>, t: Tid, v: T) returns (moves: seq<Move<T>>, s': State<T>)
    requires Shape(s) && Chain(s) && AtRest(s, t) && s.insPending < s.seenCommited + s.size
    ensures Leads(s, moves, s')
    ensures s' == s.(threads := s.threads[t := Thread(Insert(v, false), InsCheck(s.seenCommited), |s.log|, None)],
                     insOwner := Some(t))
  {
    var s2;
    moves, s2 := SoloLock(s, t, Insert(v, false));
    RoomMeansFits(Insert(v, false), s.size, s.insPending, s.seenCommited);
    moves, s' := Then(s, moves, s2, t);
    assert s' == NextInsLoadSeen(s2, t);
  }

  lemma SoloCall<T(!new)>(s: State<T>, t: Tid, op: Op<T>) returns (moves: seq<Move<T>>, s': State<T>)
    requires Shape(s) && AtRest(s, t)
    ensures Leads(s, moves, s')
    ensures s' == s.(threads := s.threads[t := Thread(op, if op.Consume? then ConLock else InsLock, |s.log|, None)])
  {
    moves := [Call(t, op)];
    s' := Next(s, moves[0]);
    RunSnoc(s, [], moves[0]);
    assert [] + [moves[0]] == moves;
  }

  /** An insertion that runs alone and finds room succeeds: eight atomic steps, one ticket. */
  lemma SoloInsert<T(!new)>(s: State<T>, t: Tid, v: T) returns (moves: seq<Move<T>>, s': State<T>)
    requires Shape(s) && Chain(s) && AtRest(s, t) && s.insPending + 1 < WORD
    requires s.insPending == s.insCommited < s.seenCommited + s.size
    ensures Leads(s, moves, s') && AtRest(s', t) && Shape(s') && Chain(s')
    ensures t in s'.threads && s'.threads[t].pc == Returned(Ticket(s.insCommited))
    ensures s'.threads.Keys == s.threads.Keys + {t} && s'.seenPending == s.seenPending
    ensures s'.insCommited == s'.insPending == s.insCommited + 1 && s'.seenCommited == s.seenCommited
  {
    var s1, s2;
    moves, s1 := SoloReserve(s, t, v);
    moves, s2 := Then(s, moves, s1, t);
    assert s2 == NextInsReserve(s1, t, s.insPending);
    moves, s' := SoloWrite(s, moves, s2, t);
  }

  lemma SoloWrite<T(!new)>(s0: State<T>, done: seq<Move<T>>, s: State<T>, t: Tid) returns (moves: seq<Move<T>>, s': State<T>)
    requires Leads(s0, done, s) && s.size == |s.buffer| && t in s.threads && s.insCommited + 1 < WORD
    requires s.threads[t].op.Insert? && s.threads[t].pc == InsWrite(s.insCommited, 0, Slot(s.size, s.insCommited))
    ensures Leads(s0, moves, s')
    ensures s' == s.(threads := s'.threads, insOwner := None, insCommited := s.insCommited + 1,
                     buffer := s'.buffer, log := s'.log)
    ensures s'.threads.Keys == s.threads.Keys && |s'.buffer| == s'.size
    ensures s'.threads[t].pc == Returned(Ticket(s.insCommited))
  {
    var s1;
    moves, s1 := Then(s0, done, s, t);
    assert s1 == NextInsWrite(s, t, s.insCommited, 0, Slot(s.size, s.insCommited));
    moves, s' := SoloCommit(s0, moves, s1, t);
  }

  lemma SoloCommit<T(!new)>(s0: State<T>, done: seq<Move<T>>, s: State<T>, t: Tid) returns (moves: seq<Move<T>>, s': State<T>)
    requires Leads(s0, done, s) && s.size == |s.buffer| && t in s.threads && s.insCommited + 1 < WORD
    requires s.threads[t].op.Insert? && s.threads[t].pc == InsCommit(s.insCommited)
    ensures Leads(s0, moves, s')
    ensures s' == s.(threads := s'.threads, insOwner := None, insCommited := s.insCommited + 1, log := s'.log)
    ensures s'.threads.Keys == s.threads.Keys && s'.threads[t].pc == Returned(Ticket(s.insCommited))
  {
    var s1;
    moves, s1 := Then(s0, done, s, t);
    assert s1 == NextInsCommit(s, t, s.insCommited);
    moves, s' := Then(s0, moves, s1, t);
    assert s' == NextUnlockIns(s1, t);
  }

  lemma SoloLock<T(!new)>(s: State<T>, t: Tid, op: Op<T>) returns (moves: seq<Move<T>>, s': State<T>)
    requires Shape(s) && AtRest(s, t)
    ensures Leads(s, moves, s')
    ensures s' == s.(threads := s.threads[t := Thread(op, if op.Consume? then ConLoadInsert else InsLoadSeen, |s.log|, None)],
                     insOwner := if op.Consume? then None else Some(t), seenOwner := if op.Consume? then Some(t) else None)
  {
    var s1;
    moves, s1 := SoloCall(s, t, op);
    moves, s' := Then(s, moves, s1, t);
    assert s' == if op.Consume? then NextConLock(s1, t, false) else NextInsLock(s1, t, false);
  }

  lemma SoloTake<T(!new)>(s: State<T>, t: Tid) returns (moves: seq<Move<T>>, s': State<T>)
    requires Shape(s) && Chain(s) && AtRest(s, t) && s.seenPending == s.seenCommited < s.insCommited
    ensures Leads(s, moves, s')
    ensures s' == s.(threads := s'.threads, seenOwner := Some(t)) && t in s'.threads
    ensures s'.threads[t].op == Consume(false) && s'.threads[t].pc == ConReserve(s.seenPending)
  {
    var s2, s3;
    moves, s2 := SoloLock(s, t, Consume(false));
    moves, s3 := Then(s, moves, s2, t);
    assert s3 == NextConLoadInsert(s2, t);
    moves, s' := Then(s, moves, s3, t);
    assert s' == NextConCheck(s3, t, s.insCommited);
  }

  /** A `consume` that runs alone on a non-empty ring returns the oldest element. */
  lemma SoloConsume<T(!new)>(s: State<T>, t: Tid) returns (moves: seq<Move<T>>, s': State<T>)
    requires Shape(s) && Chain(s) && AtRest(s, t) && s.seenPending == s.seenCommited < s.insCommited
    ensures Leads(s, moves, s') && AtRest(s', t)
    ensures t in s'.threads && s'.threads[t].pc == Returned(Value(s.buffer[Slot(s.size, s.seenCommited)]))
    ensures s'.insCommited == s.insCommited && s'.seenCommited == s.seenCommited + 1
  {
    var s1, s2, s3;
    moves, s1 := SoloTake(s, t);
    moves, s2 := Then(s, moves, s1, t);
    assert s2 == NextConReserve(s1, t, s.seenCommited);
    moves, s3 := Then(s, moves, s2, t);
    assert s3 == NextConRead(s2, t, s.seenCommited);
    moves, s' := SoloReturn(s, moves, s3, t, s.buffer[Slot(s.size, s.seenCommited)]);
  }

  lemma SoloReturn<T(!new)>(s0: State<T>, done: seq<Move<T>>, s: State<T>, t: Tid, v: T)
    returns (moves: seq<Move<T>>, s': State<T>)
    requires Leads(s0, done, s) && s.size == |s.buffer| && t in s.threads && s.seenCommited + 1 < WORD
    requires s.threads[t].pc == ConCommit(s.seenCommited, v)
    ensures Leads(s0, moves, s')
    ensures s' == s.(threads := s'.threads, seenOwner := None, seenCommited := s.seenCommited + 1, log := s'.log)
    ensures t in s'.threads && s'.threads[t].pc == Returned(Value(v))
  {
    var s1;
    moves, s1 := Then(s0, done, s, t);
    assert s1 == NextConCommit(s, t, v);
    moves, s' := Then(s0, moves, s1, t);
    assert s' == NextUnlockCon(s1, t);
  }

  /** With `_insert.commited` loaded first, `empty()` can answer "empty" although an element waited
      at every moment of the call: one element is there at the first load, then one is added, then
      one is taken, then the other counter is loaded. */
  lemma InsertFirstCanBeWrong() returns (s0: State<int>, a: seq<Move<int>>, b: seq<Move<int>>)
    ensures 0 < s0.size == |s0.buffer| && RunOf(s0, a, Run(s0, a)) && RunOf(s0, a + b, Run(s0, a + b))
    ensures EmptyVerdict(Run(s0, a).insCommited, Run(s0, a + b).seenCommited)
    ensures forall k :: 0 <= k <= |b| ==> WaitsAfter(s0, a + b[..k])
  {
    var s1, s2, s3, b1, b2;
    s0, a, b1, b2, s1, s2, s3 := WrongRun();
    b := b1 + b2;
    assert (a + b1) + b2 == a + b;
    forall k | 0 <= k <= |b|
      ensures WaitsAfter(s0, a + b[..k])
    {
      Moment(s0, a, b1, b2, s1, s2, s3, k);
    }
  }

  lemma WrongRun() returns (s0: State<int>, a: seq<Move<int>>, b1: seq<Move<int>>, b2: seq<Move<int>>,
                            s1: State<int>, s2: State<int>, s3: State<int>)
    ensures RunOf(s0, a, s1) && RunOf(s0, a + b1, s2) && RunOf(s0, (a + b1) + b2, s3)
    ensures s1.insCommited == 1 && s2.insCommited == 2 && s2.seenCommited == 0 && s3.seenCommited == 1
  {
    s0 := Init(2, 0);
    a, s1 := SoloInsert(s0, 0, 7);
    b1, s2 := SoloInsert(s1, 0, 8);
    b2, s3 := SoloConsume(s2, 1);
    Extend(s0, a, b1);
    Extend(s0, a + b1, b2);
  }

  lemma Moment<T(!new)>(s0: State<T>, a: seq<Move<T>>, b1: seq<Move<T>>, b2: seq<Move<T>>,
                        s1: State<T>, s2: State<T>, s3: State<T>, k: nat)
    requires RunOf(s0, a, s1) && RunOf(s0, a + b1, s2) && RunOf(s0, (a + b1) + b2, s3) && k <= |b1 + b2|
    requires s1.insCommited > s2.seenCommited && s2.insCommited > s3.seenCommited
    ensures WaitsAfter(s0, a + (b1 + b2)[..k])
  {
    SplitIn(a, b1, b2, k);
    if k <= |b1| {
      MomentIn(s0, a, b1, s1, s2, k);
    } else {
      MomentIn(s0, a + b1, b2, s2, s3, k - |b1|);
    }
  }

  lemma SplitIn<T(!new)>(a: seq<Move<T>>, b1: seq<Move<T>>, b2: seq<Move<T>>, k: nat)
    requires k <= |b1 + b2|
    ensures a + (b1 + b2)[..k] == if k <= |b1| then a + b1[..k] else (a + b1) + b2[..k - |b1|]
  {
  }

  lemma MomentIn<T(!new)>(s0: State<T>, a: seq<Move<T>>, b: seq<Move<T>>, s1: State<T>, s2: State<T>, k: nat)
    requires RunOf(s0, a, s1) && RunOf(s0, a + b, s2) && k <= |b| && s1.insCommited > s2.seenCommited
    ensures WaitsAfter(s0, a + b[..k])
  {
    var pre, post := b[..k], b[k..];
    PartsJoin(a, b, k, k);
    Cut(s0, a + pre, post, s2);
    WaitsThroughout(s0, a, pre, post, s1, Run(s0, a + pre), s2);
  }

  lemma Extend<T(!new)>(s0: State<T>, a: seq<Move<T>>, b: seq<Move<T>>)
    requires Fresh(s0) && |s0.buffer| == s0.size && RunOf(s0, a, Run(s0, a)) && NoWrapRun(Run(s0, a), b)
    ensures Run(s0, a + b) == Run(Run(s0, a), b) && RunOf(s0, a + b, Run(s0, a + b))
  {
    RunConcat(s0, a, b);
  }

  lemma Cut<T(!new)>(s0: State<T>, a: seq<Move<T>>, b: seq<Move<T>>, s: State<T>)
    requires RunOf(s0, a + b, s)
    ensures RunOf(s0, a, Run(s0, a))
  {
    RunConcat(s0, a, b);
  }

  /** If more was inserted at the start than is taken at the end, an element waits throughout. */
  lemma WaitsThroughout<T(!new)>(s0: State<T>, a: seq<Move<T>>, b: seq<Move<T>>, c: seq<Move<T>>,
                                 s1: State<T>, s2: State<T>, s3: State<T>)
    requires RunOf(s0, a, s1) && RunOf(s0, a + b, s2) && RunOf(s0, (a + b) + c, s3)
    requires s1.insCommited > s3.seenCommited
    ensures !IsEmpty(s2)
  {
    CountersGrow(s0, a, b, s1, s2);
    CountersGrow(s0, a + b, c, s2, s3);
  }
}
