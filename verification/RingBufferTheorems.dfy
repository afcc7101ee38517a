/** What holds of every run of the ring buffer. */
module RingBufferTheorems {
  import opened Options
  import opened Words
  import opened RingBuffer
  import opened RingBufferSafety

  /** A ring that was just constructed, with a usable size. */
  ghost predicate Fresh<T(!new)>(s: State<T>) {
    0 < s.size && s.size + 1 < WORD && exists blank: T :: s == Init(s.size, blank)
  }

  /** A state some run reaches whose counters never overflow. */
  ghost predicate RunOf<T(!new)>(s0: State<T>, moves: seq<Move<T>>, s: State<T>) {
    Fresh(s0) && |s0.buffer| == s0.size && NoWrapRun(s0, moves) && s == Run(s0, moves)
  }

  ghost function QueueOf<T(!new)>(s: State<T>): Queue<T> {
    match Replay(s.size, s.log) case None => Queue([], 0) case Some(q) => q
  }

  lemma {:induction false} RunKeepsInv<T(!new)>(s0: State<T>, moves: seq<Move<T>>, s: State<T>)
    requires RunOf(s0, moves, s)
    ensures Inv(s, QueueOf(s))
  {
    if moves == [] {
      assert Holds(s, [], 0, 0);
    } else {
      var last := |moves| - 1;
      var before := Run(s0, moves[..last]);
      RunKeepsInv(s0, moves[..last], before);
      StepKeeps(before, QueueOf(before), moves[last]);
    }
  }

  // ---------------------------------------------------------------------------------------------
  // Linearizability
  // ---------------------------------------------------------------------------------------------

  lemma {:induction false} RunConcat<T(!new)>(s: State<T>, a: seq<Move<T>>, b: seq<Move<T>>)
    requires 0 < s.size == |s.buffer|
    ensures Run(s, a + b) == Run(Run(s, a), b)
    ensures NoWrapRun(s, a + b) <==> NoWrapRun(s, a) && NoWrapRun(Run(s, a), b)
  {
    if b == [] {
      assert a + b == a;
    } else {
      var c := b[..|b| - 1];
      RunConcat(s, a, c);
      assert (a + b)[..|a + b| - 1] == a + c;
    }
  }

  ghost predicate NoCallBy<T(!new)>(moves: seq<Move<T>>, t: Tid) {
    forall i :: 0 <= i < |moves| ==> !(moves[i].Call? && moves[i].t == t)
  }

  ghost predicate Persists<T(!new)>(s: State<T>, s': State<T>, t: Tid)
    requires t in s.threads
  {
    && s.log <= s'.log && t in s'.threads
    && s'.threads[t].op == s.threads[t].op && s'.threads[t].since == s.threads[t].since
  }

  /** A step appends at most one log entry and changes no operation or call time. */
  ghost predicate Appends<T(!new)>(s: State<T>, s': State<T>, t: Tid) {
    && s.log <= s'.log && t in s.threads && t in s'.threads
    && s'.threads == s.threads[t := s'.threads[t]]
    && s'.threads[t].op == s.threads[t].op && s'.threads[t].since == s.threads[t].since
  }

  lemma ProducerAppends<T(!new)>(s: State<T>, t: Tid, spurious: bool)
    requires 0 < s.size == |s.buffer| && t in s.threads
    requires s.threads[t].pc.InsLock? || InsCritical(s.threads[t].pc)
    ensures Appends(s, Next(s, Step(t, spurious)), t)
  {
    assert s.threads == s.threads[t := s.threads[t]];
    match s.threads[t].pc
    case InsLock => assert Appends(s, NextInsLock(s, t, spurious), t);
    case InsLoadSeen => assert Appends(s, NextInsLoadSeen(s, t), t);
    case InsCheck(h) => assert Appends(s, NextInsCheck(s, t, h), t);
    case InsReserve(c) => assert Appends(s, NextInsReserve(s, t, c), t);
    case InsWrite(c, k, pos) => assert Appends(s, NextInsWrite(s, t, c, k, pos), t);
    case InsCommit(c) => assert Appends(s, NextInsCommit(s, t, c), t);
    case InsUnlock(_) => assert Appends(s, NextUnlockIns(s, t), t);
  }

  lemma ConsumerAppends<T(!new)>(s: State<T>, t: Tid, spurious: bool)
    requires 0 < s.size == |s.buffer| && t in s.threads
    requires s.threads[t].pc.ConLock? || ConCritical(s.threads[t].pc)
    ensures Appends(s, Next(s, Step(t, spurious)), t)
  {
    assert s.threads == s.threads[t := s.threads[t]];
    match s.threads[t].pc
    case ConLock => assert Appends(s, NextConLock(s, t, spurious), t);
    case ConLoadInsert => assert Appends(s, NextConLoadInsert(s, t), t);
    case ConCheck(c) => assert Appends(s, NextConCheck(s, t, c), t);
    case ConReserve(c) => assert Appends(s, NextConReserve(s, t, c), t);
    case ConRead(c) => assert Appends(s, NextConRead(s, t, c), t);
    case ConCommit(_, v) => assert Appends(s, NextConCommit(s, t, v), t);
    case ConUnlock(_) => assert Appends(s, NextUnlockCon(s, t), t);
  }

  lemma NextPersists<T(!new)>(s: State<T>, m: Move<T>, t: Tid)
    requires 0 < s.size == |s.buffer| && t in s.threads && !(m.Call? && m.t == t)
    ensures Persists(s, Next(s, m), t)
  {
    if m.Step? && m.t in s.threads {
      var pc := s.threads[m.t].pc;
      if pc.InsLock? || InsCritical(pc) {
        ProducerAppends(s, m.t, m.spurious);
      } else if pc.ConLock? || ConCritical(pc) {
        ConsumerAppends(s, m.t, m.spurious);
      }
    }
  }

  /** As long as thread `t` makes no new call, its operation and the start of its interval stay,
      and the log only grows. */
  lemma {:induction false} RunPersists<T(!new)>(s: State<T>, moves: seq<Move<T>>, t: Tid)
    requires 0 < s.size == |s.buffer| && t in s.threads && NoCallBy(moves, t)
    ensures Persists(s, Run(s, moves), t)
  {
    if moves != [] {
      var init := moves[..|moves| - 1];
      RunPersists(s, init, t);
      NextPersists(Run(s, init), moves[|moves| - 1], t);
    }
  }

  /** The log is a correct sequential history, and the operation of thread `t` appears in it
      exactly once between its call and its return, with the result it returned. */
  lemma Linearizable<T(!new)>(s0: State<T>, before: seq<Move<T>>, t: Tid, op: Op<T>, after: seq<Move<T>>, res: Result<T>)
    requires 0 < s0.size == |s0.buffer|
    requires RunOf(s0, before + [Call(t, op)] + after, Run(s0, before + [Call(t, op)] + after))
    requires var s1 := Run(s0, before); t !in s1.threads || s1.threads[t].pc.Returned?
    requires NoCallBy(after, t)
    requires var s := Run(s0, before + [Call(t, op)] + after); t in s.threads && s.threads[t].pc == Returned(res)
    ensures var s1, s := Run(s0, before), Run(s0, before + [Call(t, op)] + after);
            Replay(s0.size, s.log).Some? && OneEntry(s.log, |s1.log|, t, op, res)
  {
    CallStarts(s0, before, t, op);
    ReturnsOnce(s0, before + [Call(t, op)], after, t, op, |Run(s0, before).log|, res);
  }

  /** The operation that thread `t` has started when `first` has happened. */
  lemma ReturnsOnce<T(!new)>(s0: State<T>, first: seq<Move<T>>, after: seq<Move<T>>, t: Tid, op: Op<T>, since: nat, res: Result<T>)
    requires 0 < s0.size == |s0.buffer| && RunOf(s0, first + after, Run(s0, first + after)) && NoCallBy(after, t)
    requires var s2 := Run(s0, first); t in s2.threads && s2.threads[t].op == op && s2.threads[t].since == since
    requires var s := Run(s0, first + after); t in s.threads && s.threads[t].pc == Returned(res)
    ensures Replay(s0.size, Run(s0, first + after).log).Some?
    ensures OneEntry(Run(s0, first + after).log, since, t, op, res)
  {
    var s := Run(s0, first + after);
    RunKeepsInv(s0, first + after, s);
    RunConcat(s0, first, after);
    RunPersists(Run(s0, first), after, t);
    OwnEntry(s, QueueOf(s), t, since, op, res);
  }

  /** From `since` on the log has exactly one entry of thread `t`, and it is this one. */
  ghost predicate OneEntry<T(!new)>(log: seq<Entry<T>>, since: nat, t: Tid, op: Op<T>, res: Result<T>) {
    exists i :: since <= i < |log| && log[i] == Entry(t, op, res) && OnlyEntry(log, since, t, i)
  }

  ghost predicate OnlyEntry<T(!new)>(log: seq<Entry<T>>, since: nat, t: Tid, i: int) {
    forall j :: since <= j < |log| && j != i ==> log[j].t != t
  }

  lemma CallStarts<T(!new)>(s0: State<T>, before: seq<Move<T>>, t: Tid, op: Op<T>)
    requires 0 < s0.size == |s0.buffer|
    requires var s1 := Run(s0, before); t !in s1.threads || s1.threads[t].pc.Returned?
    ensures var s2 := Run(s0, before + [Call(t, op)]);
            t in s2.threads && s2.threads[t].op == op && s2.threads[t].since == |Run(s0, before).log|
  {
    var moves := before + [Call(t, op)];
    assert moves[..|moves| - 1] == before;
  }

  /** A thread that has returned has exactly one log entry since its call, with its result. */
  lemma OwnEntry<T(!new)>(s: State<T>, q: Queue<T>, t: Tid, since: nat, op: Op<T>, res: Result<T>)
    requires Inv(s, q) && t in s.threads && s.threads[t].pc == Returned(res)
    requires s.threads[t].since == since && s.threads[t].op == op
    ensures OneEntry(s.log, since, t, op, res)
  {
    assert ThreadOk(s, t);
    var i := s.threads[t].lin.value;
    assert s.log[i] == Entry(t, op, res) && OnlyEntry(s.log, since, t, i);
  }

  // ---------------------------------------------------------------------------------------------
  // First in, first out
  // ---------------------------------------------------------------------------------------------

  /** Everything successful insertions added, in the order of their tickets. */
  function Inserted<T>(log: seq<Entry<T>>): seq<T> {
    if log == [] then [] else
      var e := log[|log| - 1];
      Inserted(log[..|log| - 1]) + if e.res.Ticket? then e.op.Values() else []
  }

  /** Everything successful `consume`s returned, in order. */
  function Taken<T>(log: seq<Entry<T>>): seq<T> {
    if log == [] then [] else
      var e := log[|log| - 1];
      Taken(log[..|log| - 1]) + if e.res.Value? then [e.res.v] else []
  }

  lemma {:induction false} ReplayIsFifo<T(!new)>(size: nat, log: seq<Entry<T>>)
    requires Replay(size, log).Some?
    ensures var q := Replay(size, log).value;
            Inserted(log) == q.inserted && q.taken <= |q.inserted| && Taken(log) == q.inserted[..q.taken]
  {
    if log != [] {
      ReplayIsFifo(size, log[..|log| - 1]);
    }
  }

  /** In every run the values consumed so far are a prefix of the values inserted so far; the
      committed counters count both, so at most `size` values wait between them. */
  lemma FifoOrder<T(!new)>(s0: State<T>, moves: seq<Move<T>>, s: State<T>)
    requires RunOf(s0, moves, s)
    ensures Taken(s.log) <= Inserted(s.log)
    ensures |Inserted(s.log)| == s.insCommited && |Taken(s.log)| == s.seenCommited
    ensures s.seenCommited <= s.seenPending <= s.insCommited <= s.insPending <= s.seenCommited + s.size
  {
    RunKeepsInv(s0, moves, s);
    ReplayIsFifo(s.size, s.log);
  }

  /** The values of the insertion `e` stand at its ticket. */
  ghost predicate InPlace<T(!new)>(inserted: seq<T>, e: Entry<T>)
    requires e.res.Ticket?
  {
    var n, vals := e.res.n, e.op.Values();
    n + |vals| <= |inserted| && inserted[n..n + |vals|] == vals
  }

  /** A ticket is the position of the batch in the insertion order. */
  lemma {:induction false} TicketIsPosition<T(!new)>(size: nat, log: seq<Entry<T>>, i: nat)
    requires Replay(size, log).Some? && i < |log| && log[i].res.Ticket?
    ensures InPlace(Inserted(log), log[i])
  {
    var last := |log| - 1;
    var before := log[..last];
    if i < last {
      TicketIsPosition(size, before, i);
      InsertedGrows(log);
      PartStays(Inserted(before), Inserted(log), log[i]);
    } else {
      LastTicket(size, log);
    }
  }

  lemma InsertedGrows<T(!new)>(log: seq<Entry<T>>)
    requires log != []
    ensures Inserted(log[..|log| - 1]) <= Inserted(log)
  {
  }

  lemma PartStays<T(!new)>(a: seq<T>, b: seq<T>, e: Entry<T>)
    requires e.res.Ticket? && InPlace(a, e) && a <= b
    ensures InPlace(b, e)
  {
    var i, j := e.res.n, e.res.n + |e.op.Values()|;
    assert b[i..j] == a[i..j];
  }

  lemma LastTicket<T(!new)>(size: nat, log: seq<Entry<T>>)
    requires log != [] && Replay(size, log).Some? && log[|log| - 1].res.Ticket?
    ensures InPlace(Inserted(log), log[|log| - 1])
  {
    ReplayIsFifo(size, log[..|log| - 1]);
  }

  /** A refused insertion really found too little room, and an empty-handed `consume` really found
      no committed element, at the step in which it took effect. */
  lemma RefusalsAreReal<T(!new)>(s0: State<T>, moves: seq<Move<T>>, s: State<T>, m: Move<T>, e: Entry<T>)
    requires RunOf(s0, moves, s) && NoWrap(s, m) && Next(s, m).log == s.log + [e]
    ensures e.res.Full? ==> s.insCommited + |e.op.Values()| > s.seenCommited + s.size
    ensures e.res.Empty? ==> s.insCommited == s.seenCommited
  {
    RunKeepsInv(s0, moves, s);
    StepKeeps(s, QueueOf(s), m);
    RefusalIn(s, QueueOf(s), Next(s, m).log, e);
  }

  lemma RefusalIn<T(!new)>(s: State<T>, q: Queue<T>, log: seq<Entry<T>>, e: Entry<T>)
    requires Replay(s.size, s.log) == Some(q) && |q.inserted| == s.insCommited && q.taken == s.seenCommited
    requires log == s.log + [e] && Replay(s.size, log).Some?
    ensures e.res.Full? ==> s.insCommited + |e.op.Values()| > s.seenCommited + s.size
    ensures e.res.Empty? ==> s.insCommited == s.seenCommited
  {
    ReplaySnoc(s.size, s.log, e);
  }

  // ---------------------------------------------------------------------------------------------
  // Exclusion
  // ---------------------------------------------------------------------------------------------

  /** At most one thread is inside each critical section. */
  lemma MutualExclusion<T(!new)>(s0: State<T>, moves: seq<Move<T>>, s: State<T>, t: Tid, u: Tid)
    requires RunOf(s0, moves, s) && t in s.threads && u in s.threads && t != u
    ensures !(InsCritical(s.threads[t].pc) && InsCritical(s.threads[u].pc))
    ensures !(ConCritical(s.threads[t].pc) && ConCritical(s.threads[u].pc))
  {
    RunKeepsInv(s0, moves, s);
    assert ThreadOk(s, t) && ThreadOk(s, u);
  }

  /** No producer writes the slot a consumer reads. */
  lemma SlotExclusion<T(!new)>(s0: State<T>, moves: seq<Move<T>>, s: State<T>, p: Tid, c: Tid)
    requires RunOf(s0, moves, s) && p in s.threads && c in s.threads
    requires s.threads[p].pc.InsWrite? && s.threads[c].pc.ConRead?
    ensures s.threads[p].pc.pos != Slot(s.size, s.threads[c].pc.cur)
  {
    RunKeepsInv(s0, moves, s);
    assert ThreadOk(s, p) && ThreadOk(s, c);
    WriterIsAhead(s, QueueOf(s), p, c);
    SlotsDiffer(s.size, s.threads[c].pc.cur, s.threads[p].pc.cur + s.threads[p].pc.k);
  }

  lemma WriterIsAhead<T(!new)>(s: State<T>, q: Queue<T>, p: Tid, c: Tid)
    requires Shared(s, q) && p in s.threads && c in s.threads && ThreadOk(s, p) && ThreadOk(s, c)
    requires s.threads[p].pc.InsWrite? && s.threads[c].pc.ConRead?
    ensures var w, r := s.threads[p].pc, s.threads[c].pc;
            r.cur < w.cur + w.k < r.cur + s.size && w.pos == Slot(s.size, w.cur + w.k)
  {
  }

  /** While a batch is being written every ticket a consumer may hold is older than the batch: no
      element of a batch is taken before all of it is in place. */
  lemma BatchIsAtomic<T(!new)>(s0: State<T>, moves: seq<Move<T>>, s: State<T>, p: Tid, c: Tid)
    requires RunOf(s0, moves, s) && p in s.threads && c in s.threads
    requires s.threads[p].pc.InsWrite? || s.threads[p].pc.InsCommit?
    requires s.threads[c].pc.ConReserve? || s.threads[c].pc.ConRead? || s.threads[c].pc.ConCommit?
    ensures s.threads[c].pc.cur < s.threads[p].pc.cur == |Inserted(s.log)|
  {
    RunKeepsInv(s0, moves, s);
    FifoOrder(s0, moves, s);
    assert ThreadOk(s, p) && ThreadOk(s, c);
  }

  /** The number of steps the holder of a lock still needs at most. */
  function StepsToRelease<T>(th: Thread<T>): nat {
    var n := |th.op.Values()|;
    match th.pc
    case InsLoadSeen => n + 5
    case InsCheck(_) => n + 4
    case InsReserve(_) => n + 3
    case InsWrite(_, k, _) => if k < n then n - k + 2 else 3
    case InsCommit(_) => 2
    case InsUnlock(_) => 1
    case ConLoadInsert => 6
    case ConCheck(_) => 5
    case ConReserve(_) => 4
    case ConRead(_) => 3
    case ConCommit(_, _) => 2
    case ConUnlock(_) => 1
    case _ => 0
  }

  lemma ProducerEnds<T(!new)>(s: State<T>, t: Tid, spurious: bool)
    requires Shape(s) && Chain(s) && t in s.threads && InsCritical(s.threads[t].pc) && ProducerOk(s, s.threads[t])
    ensures var s' := Next(s, Step(t, spurious));
            && t in s'.threads && StepsToRelease(s'.threads[t]) < StepsToRelease(s.threads[t])
            && (StepsToRelease(s'.threads[t]) == 0 <==> s.threads[t].pc.InsUnlock?)
  {
    match s.threads[t].pc
    case InsLoadSeen => var s' := NextInsLoadSeen(s, t); assert s'.threads[t].pc.InsCheck?;
    case InsCheck(h) => var s' := NextInsCheck(s, t, h); assert s'.threads[t].pc.InsReserve? || s'.threads[t].pc.InsUnlock?;
    case InsReserve(c) => var s' := NextInsReserve(s, t, c); assert s'.threads[t].op == s.threads[t].op;
    case InsWrite(c, k, pos) => var s' := NextInsWrite(s, t, c, k, pos); assert s'.threads[t].op == s.threads[t].op;
    case InsCommit(c) => var s' := NextInsCommit(s, t, c); assert s'.threads[t].pc.InsUnlock?;
    case InsUnlock(_) => var s' := NextUnlockIns(s, t); assert !InsCritical(s'.threads[t].pc);
  }

  lemma ConsumerEnds<T(!new)>(s: State<T>, t: Tid, spurious: bool)
    requires Shape(s) && t in s.threads && ConCritical(s.threads[t].pc)
    ensures var s' := Next(s, Step(t, spurious));
            && t in s'.threads && StepsToRelease(s'.threads[t]) < StepsToRelease(s.threads[t])
            && (StepsToRelease(s'.threads[t]) == 0 <==> s.threads[t].pc.ConUnlock?)
  {
    match s.threads[t].pc
    case ConLoadInsert => var s' := NextConLoadInsert(s, t); assert s'.threads[t].pc.ConCheck?;
    case ConCheck(c) => var s' := NextConCheck(s, t, c); assert s'.threads[t].pc.ConReserve? || s'.threads[t].pc.ConUnlock?;
    case ConReserve(c) => var s' := NextConReserve(s, t, c); assert s'.threads[t].pc.ConRead?;
    case ConRead(c) => var s' := NextConRead(s, t, c); assert s'.threads[t].pc.ConCommit?;
    case ConCommit(_, v) => var s' := NextConCommit(s, t, v); assert s'.threads[t].pc.ConUnlock?;
    case ConUnlock(_) => var s' := NextUnlockCon(s, t); assert !ConCritical(s'.threads[t].pc);
  }

  /** Critical sections end: every step of a lock holder brings its release nearer, whatever the
      other threads did in between. */
  lemma CriticalSectionEnds<T(!new)>(s0: State<T>, moves: seq<Move<T>>, s: State<T>, t: Tid, spurious: bool)
    requires RunOf(s0, moves, s) && t in s.threads && (InsCritical(s.threads[t].pc) || ConCritical(s.threads[t].pc))
    ensures var s' := Next(s, Step(t, spurious));
            && t in s'.threads && StepsToRelease(s'.threads[t]) < StepsToRelease(s.threads[t])
            && (StepsToRelease(s'.threads[t]) == 0 <==> s.threads[t].pc.InsUnlock? || s.threads[t].pc.ConUnlock?)
  {
    RunKeepsInv(s0, moves, s);
    assert ThreadOk(s, t);
    if InsCritical(s.threads[t].pc) {
      ProducerEnds(s, t, spurious);
    } else {
      ConsumerEnds(s, t, spurious);
    }
  }
}
