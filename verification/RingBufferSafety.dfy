/** The ring buffer is linearizable: what every step keeps, and what follows for every run. */
module RingBufferSafety {
  import opened Options
  import opened Words
  import opened RingBuffer

  // ---------------------------------------------------------------------------------------------
  // Slots
  // ---------------------------------------------------------------------------------------------

  lemma {:induction false} SlotIsModulo(size: nat, ticket: nat)
    requires size > 0
    ensures Slot(size, ticket) == ticket % size
  {
    if ticket < size {
      ModUnique(size, ticket, 0, ticket);
    } else {
      SlotIsModulo(size, ticket - size);
      var q, r := (ticket - size) / size, (ticket - size) % size;
      assert ticket == size * (q + 1) + r;
      ModUnique(size, ticket, q + 1, r);
    }
  }

  /** Two tickets less than `size` apart never share a slot. */
  lemma {:induction false} SlotsDiffer(size: nat, i: nat, j: nat)
    requires i < j < i + size
    ensures Slot(size, i) != Slot(size, j)
  {
    if i >= size {
      SlotsDiffer(size, i - size, j - size);
    } else if j >= size {
      assert Slot(size, j) == Slot(size, j - size) == j - size;
    }
  }

  /** The manual wrap of `insertAll` moves to the slot of the next ticket. */
  lemma {:induction false} WrapIsNextSlot(size: nat, ticket: nat)
    requires size > 0
    ensures Slot(size, ticket + 1) == if Slot(size, ticket) + 1 >= size then 0 else Slot(size, ticket) + 1
  {
    if ticket >= size {
      WrapIsNextSlot(size, ticket - size);
    } else if ticket + 1 == size {
      assert Slot(size, size) == Slot(size, 0);
    }
  }

  /** The unsigned guards of `insert` and `insertAll` mean exactly that the elements fit. */
  lemma RoomMeansFits<T>(op: Op<T>, size: nat, cur: nat, seenHead: nat)
    requires size + 1 < WORD && seenHead <= cur <= seenHead + size && cur < WORD
    requires !op.Consume?
    ensures Room(op, size, cur, seenHead) <==> cur + |op.Values()| <= seenHead + size
  {
    assert Sub64(cur, seenHead) == cur - seenHead;
    assert Add64(size, 1) == size + 1;
    if op.InsertAll? && size >= |op.values| {
      assert Sub64(size + 1, |op.values|) == size + 1 - |op.values|;
    }
  }

  // ---------------------------------------------------------------------------------------------
  // The invariant
  // ---------------------------------------------------------------------------------------------

  /** The slots [lo, hi) of the ring hold the elements `inserted[lo..hi]`. */
  ghost predicate Holds<T(!new)>(s: State<T>, inserted: seq<T>, lo: nat, hi: nat)
    requires 0 < s.size == |s.buffer|
  {
    hi <= |inserted| && forall i: nat {:trigger inserted[i]} :: lo <= i < hi ==> s.buffer[Slot(s.size, i)] == inserted[i]
  }

  /** The first `k` elements of a batch with first ticket `cur` are in their slots. */
  ghost predicate Written<T(!new)>(s: State<T>, vals: seq<T>, cur: nat, k: nat)
    requires 0 < s.size == |s.buffer|
  {
    k <= |vals| && forall j: nat {:trigger vals[j]} :: j < k ==> s.buffer[Slot(s.size, cur + j)] == vals[j]
  }

  predicate InsCritical<T>(pc: Pc<T>) {
    pc.InsLoadSeen? || pc.InsCheck? || pc.InsReserve? || pc.InsWrite? || pc.InsCommit? || pc.InsUnlock?
  }

  predicate ConCritical<T>(pc: Pc<T>) {
    pc.ConLoadInsert? || pc.ConCheck? || pc.ConReserve? || pc.ConRead? || pc.ConCommit? || pc.ConUnlock?
  }

  /** The producer side, seen by the thread that holds `_insert.mutex`. */
  ghost predicate ProducerOk<T(!new)>(s: State<T>, th: Thread<T>)
    requires 0 < s.size == |s.buffer|
  {
    var vals := th.op.Values();
    match th.pc
    case InsLoadSeen => s.insPending == s.insCommited
    case InsCheck(seenHead) =>
      && s.insPending == s.insCommited <= seenHead + s.size && seenHead <= s.seenCommited
      && (th.lin.Some? <==> !th.op.wait && s.insPending + |vals| > seenHead + s.size)
    case InsReserve(cur) => cur == s.insPending == s.insCommited && cur + |vals| <= s.seenCommited + s.size
    case InsWrite(cur, k, pos) =>
      && cur == s.insCommited && s.insPending == cur + |vals| && k < |vals| && pos == Slot(s.size, cur + k)
      && Written(s, vals, cur, k)
    case InsCommit(cur) => cur == s.insCommited && s.insPending == cur + |vals| && Written(s, vals, cur, |vals|)
    case InsUnlock(_) => s.insPending == s.insCommited
    case _ => false
  }

  /** The consumer side, seen by the thread that holds `_seen.mutex`. */
  ghost predicate ConsumerOk<T(!new)>(s: State<T>, inserted: seq<T>, th: Thread<T>) {
    match th.pc
    case ConLoadInsert => s.seenPending == s.seenCommited
    case ConCheck(curInsert) =>
      && s.seenPending == s.seenCommited <= curInsert <= s.insCommited
      && (th.lin.Some? <==> !th.op.wait && !(curInsert > s.seenPending))
    case ConReserve(cur) => cur == s.seenPending == s.seenCommited < s.insCommited
    case ConRead(cur) => cur == s.seenCommited && s.seenPending == cur + 1 <= s.insCommited
    case ConCommit(cur, val) =>
      && cur == s.seenCommited && s.seenPending == cur + 1 <= s.insCommited
      && cur < |inserted| && val == inserted[cur]
    case ConUnlock(_) => s.seenPending == s.seenCommited
    case _ => false
  }

  ghost predicate ProducerSide<T(!new)>(s: State<T>)
    requires 0 < s.size == |s.buffer|
  {
    match s.insOwner
    case None => s.insPending == s.insCommited
    case Some(t) => t in s.threads && ProducerOk(s, s.threads[t])
  }

  ghost predicate ConsumerSide<T(!new)>(s: State<T>, inserted: seq<T>) {
    match s.seenOwner
    case None => s.seenPending == s.seenCommited
    case Some(t) => t in s.threads && ConsumerOk(s, inserted, s.threads[t])
  }

  /** The result the operation has settled on by its program point, if any. */
  function Settled<T>(pc: Pc<T>): Option<Result<T>> {
    match pc
    case Returned(res) => Some(res)
    case InsUnlock(Return(res)) => Some(res)
    case ConUnlock(Return(res)) => Some(res)
    case _ => None
  }

  /** Since its call a thread has no log entry but the one in which its operation took effect. */
  ghost predicate LinOk<T(!new)>(log: seq<Entry<T>>, t: Tid, th: Thread<T>) {
    && th.since <= |log|
    && (forall i :: th.since <= i < |log| && Some(i) != th.lin ==> log[i].t != t)
    && (th.lin.Some? ==>
          && th.since <= th.lin.value < |log| && log[th.lin.value].t == t && log[th.lin.value].op == th.op
          && (th.pc.InsCheck? ==> log[th.lin.value].res == Full)
          && (th.pc.ConCheck? ==> log[th.lin.value].res == Empty)
          && (th.pc.InsCheck? || th.pc.ConCheck? || Settled(th.pc) == Some(log[th.lin.value].res)))
    && (Settled(th.pc).Some? ==> th.lin.Some?)
  }

  /** Exactly the holder of a lock is inside the critical section. */
  ghost predicate Exclusive<T(!new)>(s: State<T>, t: Tid, pc: Pc<T>) {
    && (InsCritical(pc) <==> s.insOwner == Some(t))
    && (ConCritical(pc) <==> s.seenOwner == Some(t))
  }

  ghost predicate ThreadOk<T(!new)>(s: State<T>, t: Tid)
    requires t in s.threads
  {
    var th := s.threads[t];
    && (InsCritical(th.pc) || th.pc.InsLock? ==> !th.op.Consume?)
    && (ConCritical(th.pc) || th.pc.ConLock? ==> th.op.Consume?)
    && !th.pc.Idle?
    && Exclusive(s, t, th.pc) && LinOk(s.log, t, th)
  }

  /** The order of the four counters. */
  ghost predicate Chain<T(!new)>(s: State<T>) {
    s.seenCommited <= s.seenPending <= s.insCommited <= s.insPending <= s.seenCommited + s.size
  }

  /** The concrete ring represents the abstract queue `q`. */
  ghost predicate Represents<T(!new)>(s: State<T>, q: Queue<T>)
    requires 0 < s.size == |s.buffer|
  {
    && Replay(s.size, s.log) == Some(q)
    && |q.inserted| == s.insCommited && q.taken == s.seenCommited
    && Holds(s, q.inserted, s.seenCommited, s.insCommited)
  }

  ghost predicate Shape<T(!new)>(s: State<T>) {
    0 < s.size == |s.buffer| && s.size + 1 < WORD && s.insPending < WORD
  }

  ghost predicate Shared<T(!new)>(s: State<T>, q: Queue<T>) {
    Shape(s) && Chain(s) && Represents(s, q) && ProducerSide(s) && ConsumerSide(s, q.inserted)
  }

  ghost predicate Inv<T(!new)>(s: State<T>, q: Queue<T>) {
    Shared(s, q) && forall t :: t in s.threads ==> ThreadOk(s, t)
  }

  lemma ReplaySnoc<T(!new)>(size: nat, log: seq<Entry<T>>, e: Entry<T>)
    ensures Replay(size, log + [e]) ==
            match Replay(size, log) case None => None case Some(q) => Apply(size, q, e)
  {
    assert (log + [e])[..|log + [e]| - 1] == log;
  }

  // ---------------------------------------------------------------------------------------------
  // Every step keeps the invariant
  // ---------------------------------------------------------------------------------------------

  /** What a step of thread `t` may do, as far as the others can tell: it appends at most its own
      log entry and takes or releases locks only for itself. */
  ghost predicate Guarantee<T(!new)>(s: State<T>, s': State<T>, t: Tid) {
    && s'.threads.Keys == s.threads.Keys + {t}
    && (forall u :: u != t && u in s.threads ==> s'.threads[u] == s.threads[u])
    && s.log <= s'.log && |s'.log| <= |s.log| + 1
    && (|s'.log| > |s.log| ==> s'.log[|s.log|].t == t)
    && (s'.insOwner == s.insOwner || (s.insOwner.None? && s'.insOwner == Some(t)) || (s.insOwner == Some(t) && s'.insOwner.None?))
    && (s'.seenOwner == s.seenOwner || (s.seenOwner.None? && s'.seenOwner == Some(t)) || (s.seenOwner == Some(t) && s'.seenOwner.None?))
  }

  /** Rely: a step of `t` within its guarantee keeps what every other thread knows. */
  lemma OthersKeep<T(!new)>(s: State<T>, s': State<T>, t: Tid, u: Tid)
    requires Guarantee(s, s', t) && u != t && u in s.threads && ThreadOk(s, u)
    ensures ThreadOk(s', u)
  {
  }

  /** What a step of thread `t` from `s` to `s'` has to establish. */
  ghost predicate Kept<T(!new)>(s: State<T>, s': State<T>, q': Queue<T>, t: Tid) {
    Shared(s', q') && Guarantee(s, s', t) && t in s'.threads && ThreadOk(s', t)
  }

  lemma Assemble<T(!new)>(s: State<T>, q: Queue<T>, s': State<T>, q': Queue<T>, t: Tid)
    requires Inv(s, q) && Kept(s, s', q', t)
    ensures Inv(s', q')
  {
    forall u | u in s'.threads
      ensures ThreadOk(s', u)
    {
      if u != t { OthersKeep(s, s', t, u); }
    }
  }

  /** The step in which the operation of thread `t` takes effect. */
  lemma LinNow<T(!new)>(log: seq<Entry<T>>, t: Tid, th: Thread<T>, pc: Pc<T>, res: Result<T>)
    requires LinOk(log, t, th) && th.lin.None?
    requires Settled(pc) == Some(res) || (pc.InsCheck? && res == Full) || (pc.ConCheck? && res == Empty)
    ensures LinOk(log + [Entry(t, th.op, res)], t, th.(pc := pc, lin := Some(|log|)))
  {
  }

  /** The producer finds its side as it left it after a step of another thread. */
  lemma ProducerFrame<T(!new)>(s: State<T>, s': State<T>, t: Tid)
    requires Shape(s) && ProducerSide(s) && Guarantee(s, s', t)
    requires s.insOwner != Some(t) && s'.insOwner == s.insOwner
    requires s'.size == s.size && s'.buffer == s.buffer && s.seenCommited <= s'.seenCommited
    requires s'.insPending == s.insPending && s'.insCommited == s.insCommited
    ensures ProducerSide(s')
  {
    if s.insOwner.Some? {
      var th := s.threads[s.insOwner.value];
      assert s'.threads[s.insOwner.value] == th;
      assert th.pc.InsWrite? ==> Written(s', th.op.Values(), th.pc.cur, th.pc.k);
      assert th.pc.InsCommit? ==> Written(s', th.op.Values(), th.pc.cur, |th.op.Values()|);
    }
  }

  /** The consumer finds its side as it left it after a step of another thread. */
  lemma ConsumerFrame<T(!new)>(s: State<T>, inserted: seq<T>, s': State<T>, inserted': seq<T>, t: Tid)
    requires ConsumerSide(s, inserted) && Guarantee(s, s', t)
    requires s.seenOwner != Some(t) && s'.seenOwner == s.seenOwner
    requires s'.seenPending == s.seenPending && s'.seenCommited == s.seenCommited
    requires s.insCommited <= s'.insCommited && inserted <= inserted'
    ensures ConsumerSide(s', inserted')
  {
    if s.seenOwner.Some? {
      assert s'.threads[s.seenOwner.value] == s.threads[s.seenOwner.value];
    }
  }

  lemma RepresentsFrame<T(!new)>(s: State<T>, q: Queue<T>, s': State<T>)
    requires 0 < s.size == |s.buffer| && Represents(s, q)
    requires s'.size == s.size && s'.buffer == s.buffer && s'.seenCommited == s.seenCommited
    requires s'.insCommited == s.insCommited && Replay(s.size, s'.log) == Some(q)
    ensures Represents(s', q)
  {
    assert Holds(s', q.inserted, s.seenCommited, s.insCommited);
  }

  lemma CallOwn<T(!new)>(s: State<T>, m: Move<T>)
    requires 0 < s.size == |s.buffer| && m.Call? && (m.t in s.threads ==> ThreadOk(s, m.t)) && Next(s, m) != s
    requires s.insOwner != Some(m.t) && s.seenOwner != Some(m.t)
    ensures var s' := Next(s, m); Guarantee(s, s', m.t) && m.t in s'.threads && ThreadOk(s', m.t)
  {
  }

  lemma CallKeeps<T(!new)>(s: State<T>, q: Queue<T>, m: Move<T>)
    requires Shared(s, q) && m.Call? && (m.t in s.threads ==> ThreadOk(s, m.t))
    ensures Next(s, m) == s || Kept(s, Next(s, m), q, m.t)
  {
    var s' := Next(s, m);
    if s' != s {
      CallOwn(s, m);
      ProducerFrame(s, s', m.t);
      ConsumerFrame(s, q.inserted, s', q.inserted, m.t);
      RepresentsFrame(s, q, s');
    }
  }

  lemma InsLockKeeps<T(!new)>(s: State<T>, q: Queue<T>, t: Tid, spurious: bool)
    requires Shared(s, q) && t in s.threads && ThreadOk(s, t) && s.threads[t].pc.InsLock?
    ensures var s' := NextInsLock(s, t, spurious); s' == s || Kept(s, s', q, t)
  {
    var s' := NextInsLock(s, t, spurious);
    if s' != s {
      assert Guarantee(s, s', t);
      assert ProducerSide(s');
      ConsumerFrame(s, q.inserted, s', q.inserted, t);
      RepresentsFrame(s, q, s');
    }
  }

  lemma InsUnlockKeeps<T(!new)>(s: State<T>, q: Queue<T>, t: Tid)
    requires Shared(s, q) && t in s.threads && ThreadOk(s, t) && s.threads[t].pc.InsUnlock?
    ensures Kept(s, NextUnlockIns(s, t), q, t)
  {
    var s' := NextUnlockIns(s, t);
    assert ThreadOk(s, t);
    assert Guarantee(s, s', t);
    assert ProducerSide(s');
    ConsumerFrame(s, q.inserted, s', q.inserted, t);
    RepresentsFrame(s, q, s');
  }

  lemma ConLockKeeps<T(!new)>(s: State<T>, q: Queue<T>, t: Tid, spurious: bool)
    requires Shared(s, q) && t in s.threads && ThreadOk(s, t) && s.threads[t].pc.ConLock?
    ensures var s' := NextConLock(s, t, spurious); s' == s || Kept(s, s', q, t)
  {
    var s' := NextConLock(s, t, spurious);
    if s' != s {
      assert Guarantee(s, s', t);
      assert ConsumerSide(s', q.inserted);
      ProducerFrame(s, s', t);
      RepresentsFrame(s, q, s');
    }
  }

  lemma ConUnlockKeeps<T(!new)>(s: State<T>, q: Queue<T>, t: Tid)
    requires Shared(s, q) && t in s.threads && ThreadOk(s, t) && s.threads[t].pc.ConUnlock?
    ensures Kept(s, NextUnlockCon(s, t), q, t)
  {
    var s' := NextUnlockCon(s, t);
    assert ThreadOk(s, t);
    assert Guarantee(s, s', t);
    assert ConsumerSide(s', q.inserted);
    ProducerFrame(s, s', t);
    RepresentsFrame(s, q, s');
  }

  lemma LoadSeenOwn<T(!new)>(s: State<T>, q: Queue<T>, t: Tid)
    requires Shared(s, q) && t in s.threads && ThreadOk(s, t) && s.threads[t].pc.InsLoadSeen?
    ensures var s' := NextInsLoadSeen(s, t); Guarantee(s, s', t) && t in s'.threads && ThreadOk(s', t)
  {
    LinNow(s.log, t, s.threads[t], InsCheck(s.seenCommited), Full);
  }

  /** A refused insertion finds the abstract queue too full. */
  lemma LoadSeenRepresents<T(!new)>(s: State<T>, q: Queue<T>, t: Tid)
    requires Shape(s) && Chain(s) && Represents(s, q) && t in s.threads && !s.threads[t].op.Consume?
    requires s.insPending == s.insCommited
    ensures Represents(NextInsLoadSeen(s, t), q)
  {
    RoomMeansFits(s.threads[t].op, s.size, s.insPending, s.seenCommited);
    ReplaySnoc(s.size, s.log, Entry(t, s.threads[t].op, Full));
    RepresentsFrame(s, q, NextInsLoadSeen(s, t));
  }

  lemma LoadSeenKeeps<T(!new)>(s: State<T>, q: Queue<T>, t: Tid)
    requires Shared(s, q) && t in s.threads && ThreadOk(s, t) && s.threads[t].pc.InsLoadSeen?
    ensures Kept(s, NextInsLoadSeen(s, t), q, t)
  {
    var s' := NextInsLoadSeen(s, t);
    LoadSeenOwn(s, q, t);
    RoomMeansFits(s.threads[t].op, s.size, s.insPending, s.seenCommited);
    LoadSeenRepresents(s, q, t);
    assert ProducerSide(s');
    ConsumerFrame(s, q.inserted, s', q.inserted, t);
  }

  lemma CheckOwn<T(!new)>(s: State<T>, t: Tid)
    requires t in s.threads && ThreadOk(s, t) && s.threads[t].pc.InsCheck?
    requires s.threads[t].lin.Some? <==> !s.threads[t].op.wait && !Room(s.threads[t].op, s.size, s.insPending, s.threads[t].pc.seenHead)
    ensures var s' := NextInsCheck(s, t, s.threads[t].pc.seenHead); Guarantee(s, s', t) && t in s'.threads && ThreadOk(s', t)
  {
  }

  lemma CheckKeeps<T(!new)>(s: State<T>, q: Queue<T>, t: Tid)
    requires Shared(s, q) && t in s.threads && ThreadOk(s, t) && s.threads[t].pc.InsCheck?
    ensures Kept(s, NextInsCheck(s, t, s.threads[t].pc.seenHead), q, t)
  {
    var seenHead := s.threads[t].pc.seenHead;
    var s' := NextInsCheck(s, t, seenHead);
    RoomMeansFits(s.threads[t].op, s.size, s.insPending, seenHead);
    CheckOwn(s, t);
    assert ProducerSide(s');
    ConsumerFrame(s, q.inserted, s', q.inserted, t);
    RepresentsFrame(s, q, s');
  }

  lemma ReserveOwn<T(!new)>(s: State<T>, t: Tid)
    requires Shape(s) && t in s.threads && ThreadOk(s, t) && s.threads[t].pc.InsReserve?
    requires s.insPending + |s.threads[t].op.Values()| < WORD
    ensures var s' := NextInsReserve(s, t, s.threads[t].pc.cur);
            && s'.insPending == s.insPending + |s.threads[t].op.Values()|
            && Guarantee(s, s', t) && t in s'.threads && ThreadOk(s', t)
  {
  }

  lemma ReserveKeeps<T(!new)>(s: State<T>, q: Queue<T>, t: Tid)
    requires Shared(s, q) && t in s.threads && ThreadOk(s, t) && s.threads[t].pc.InsReserve?
    requires s.insPending + |s.threads[t].op.Values()| < WORD
    ensures Kept(s, NextInsReserve(s, t, s.threads[t].pc.cur), q, t)
  {
    var s' := NextInsReserve(s, t, s.threads[t].pc.cur);
    ReserveOwn(s, t);
    assert Written(s', s.threads[t].op.Values(), s.insPending, 0);
    assert ProducerSide(s');
    ConsumerFrame(s, q.inserted, s', q.inserted, t);
    RepresentsFrame(s, q, s');
  }

  /** The write overwrites no element still to be consumed. */
  lemma WriteSpares<T(!new)>(s: State<T>, q: Queue<T>, t: Tid)
    requires Shared(s, q) && t in s.threads && s.insOwner == Some(t) && s.threads[t].pc.InsWrite?
    ensures var pc := s.threads[t].pc; Represents(NextInsWrite(s, t, pc.cur, pc.k, pc.pos), q)
  {
    var InsWrite(cur, k, pos) := s.threads[t].pc;
    var s' := NextInsWrite(s, t, cur, k, pos);
    forall i: nat | s.seenCommited <= i < s.insCommited
      ensures s'.buffer[Slot(s.size, i)] == q.inserted[i]
    {
      SlotsDiffer(s.size, i, cur + k);
    }
  }

  /** The write extends the part of the batch that is in place. */
  lemma WriteExtends<T(!new)>(s: State<T>, t: Tid)
    requires Shape(s) && Chain(s) && t in s.threads && s.threads[t].pc.InsWrite? && ProducerOk(s, s.threads[t])
    ensures var pc := s.threads[t].pc;
            Written(NextInsWrite(s, t, pc.cur, pc.k, pc.pos), s.threads[t].op.Values(), pc.cur, pc.k + 1)
  {
    var vals := s.threads[t].op.Values();
    var InsWrite(cur, k, pos) := s.threads[t].pc;
    var s' := NextInsWrite(s, t, cur, k, pos);
    forall j: nat | j < k + 1
      ensures s'.buffer[Slot(s.size, cur + j)] == vals[j]
    {
      if j < k { SlotsDiffer(s.size, cur + j, cur + k); }
    }
  }

  lemma WriteOwn<T(!new)>(s: State<T>, t: Tid)
    requires Shape(s) && t in s.threads && ThreadOk(s, t) && s.threads[t].pc.InsWrite?
    ensures var pc := s.threads[t].pc; var s' := NextInsWrite(s, t, pc.cur, pc.k, pc.pos);
            Guarantee(s, s', t) && t in s'.threads && ThreadOk(s', t)
  {
  }

  /** The write position moves with the tickets. */
  lemma WriteMoves<T(!new)>(s: State<T>, t: Tid)
    requires Shape(s) && t in s.threads && s.threads[t].pc.InsWrite? && ProducerOk(s, s.threads[t])
    ensures var pc := s.threads[t].pc; var pc' := NextInsWrite(s, t, pc.cur, pc.k, pc.pos).threads[t].pc;
            pc' == if pc.k + 1 == |s.threads[t].op.Values()| then InsCommit(pc.cur)
                   else InsWrite(pc.cur, pc.k + 1, Slot(s.size, pc.cur + (pc.k + 1)))
  {
    var InsWrite(cur, k, pos) := s.threads[t].pc;
    WrapIsNextSlot(s.size, cur + k);
    assert Slot(s.size, cur + (k + 1)) == Slot(s.size, (cur + k) + 1);
  }

  lemma WriteSide<T(!new)>(s: State<T>, t: Tid)
    requires Shape(s) && Chain(s) && t in s.threads && s.insOwner == Some(t)
    requires s.threads[t].pc.InsWrite? && ProducerOk(s, s.threads[t])
    ensures var pc := s.threads[t].pc; var s' := NextInsWrite(s, t, pc.cur, pc.k, pc.pos);
            |s'.buffer| == s'.size && ProducerSide(s')
  {
    var InsWrite(cur, k, pos) := s.threads[t].pc;
    var s' := NextInsWrite(s, t, cur, k, pos);
    WriteMoves(s, t);
    WriteExtends(s, t);
    assert ProducerOk(s', s'.threads[t]);
  }

  lemma WriteKeeps<T(!new)>(s: State<T>, q: Queue<T>, t: Tid)
    requires Shared(s, q) && t in s.threads && ThreadOk(s, t) && s.threads[t].pc.InsWrite?
    ensures var pc := s.threads[t].pc; Kept(s, NextInsWrite(s, t, pc.cur, pc.k, pc.pos), q, t)
  {
    var InsWrite(cur, k, pos) := s.threads[t].pc;
    WriteOwn(s, t);
    WriteSide(s, t);
    WriteSpares(s, q, t);
    ConsumerFrame(s, q.inserted, NextInsWrite(s, t, cur, k, pos), q.inserted, t);
  }

  /** Committing a batch appends it to the queue, all of it at once. */
  lemma CommitRepresents<T(!new)>(s: State<T>, q: Queue<T>, t: Tid)
    requires Shared(s, q) && t in s.threads && s.insOwner == Some(t) && s.threads[t].pc.InsCommit?
    requires !s.threads[t].op.Consume?
    ensures Represents(NextInsCommit(s, t, s.threads[t].pc.cur), Queue(q.inserted + s.threads[t].op.Values(), q.taken))
  {
    var th := s.threads[t];
    var cur := th.pc.cur;
    var vals := th.op.Values();
    var s', q' := NextInsCommit(s, t, cur), Queue(q.inserted + vals, q.taken);
    assert s'.insCommited == s.insPending;
    ReplaySnoc(s.size, s.log, Entry(t, th.op, Ticket(cur)));
    forall i: nat | s'.seenCommited <= i < s'.insCommited
      ensures s'.buffer[Slot(s.size, i)] == q'.inserted[i]
    {
      if i >= cur {
        assert q'.inserted[i] == vals[i - cur];
        assert Slot(s.size, cur + (i - cur)) == Slot(s.size, i);
      } else {
        assert q'.inserted[i] == q.inserted[i];
      }
    }
  }

  lemma InsCommitOwn<T(!new)>(s: State<T>, t: Tid)
    requires t in s.threads && ThreadOk(s, t) && s.threads[t].pc.InsCommit?
    ensures var s' := NextInsCommit(s, t, s.threads[t].pc.cur); Guarantee(s, s', t) && t in s'.threads && ThreadOk(s', t)
  {
    var cur := s.threads[t].pc.cur;
    LinNow(s.log, t, s.threads[t], InsUnlock(Return(Ticket(cur))), Ticket(cur));
  }

  lemma InsCommitKeeps<T(!new)>(s: State<T>, q: Queue<T>, t: Tid)
    requires Shared(s, q) && t in s.threads && ThreadOk(s, t) && s.threads[t].pc.InsCommit?
    ensures Kept(s, NextInsCommit(s, t, s.threads[t].pc.cur), Queue(q.inserted + s.threads[t].op.Values(), q.taken), t)
  {
    var s' := NextInsCommit(s, t, s.threads[t].pc.cur);
    assert s'.insCommited == s.insPending;
    InsCommitOwn(s, t);
    CommitRepresents(s, q, t);
    assert ProducerSide(s');
    ConsumerFrame(s, q.inserted, s', q.inserted + s.threads[t].op.Values(), t);
  }

  lemma ConLoadOwn<T(!new)>(s: State<T>, t: Tid)
    requires t in s.threads && ThreadOk(s, t) && s.threads[t].pc.ConLoadInsert?
    ensures var s' := NextConLoadInsert(s, t); Guarantee(s, s', t) && t in s'.threads && ThreadOk(s', t)
  {
    LinNow(s.log, t, s.threads[t], ConCheck(s.insCommited), Empty);
  }

  /** An empty consume finds the abstract queue empty. */
  lemma ConLoadRepresents<T(!new)>(s: State<T>, q: Queue<T>, t: Tid)
    requires Shape(s) && Represents(s, q) && t in s.threads && s.threads[t].op.Consume? && s.seenPending == s.seenCommited
    requires s.insCommited >= s.seenPending
    ensures Represents(NextConLoadInsert(s, t), q)
  {
    ReplaySnoc(s.size, s.log, Entry(t, s.threads[t].op, Empty));
    RepresentsFrame(s, q, NextConLoadInsert(s, t));
  }

  lemma ConLoadKeeps<T(!new)>(s: State<T>, q: Queue<T>, t: Tid)
    requires Shared(s, q) && t in s.threads && ThreadOk(s, t) && s.threads[t].pc.ConLoadInsert?
    ensures Kept(s, NextConLoadInsert(s, t), q, t)
  {
    var s' := NextConLoadInsert(s, t);
    ConLoadOwn(s, t);
    ConLoadRepresents(s, q, t);
    assert ConsumerSide(s', q.inserted);
    ProducerFrame(s, s', t);
  }

  lemma ConCheckKeeps<T(!new)>(s: State<T>, q: Queue<T>, t: Tid)
    requires Shared(s, q) && t in s.threads && ThreadOk(s, t) && s.threads[t].pc.ConCheck?
    ensures Kept(s, NextConCheck(s, t, s.threads[t].pc.curInsert), q, t)
  {
    var s' := NextConCheck(s, t, s.threads[t].pc.curInsert);
    assert Guarantee(s, s', t);
    assert ConsumerSide(s', q.inserted);
    ProducerFrame(s, s', t);
    RepresentsFrame(s, q, s');
  }

  lemma ConReserveKeeps<T(!new)>(s: State<T>, q: Queue<T>, t: Tid)
    requires Shared(s, q) && t in s.threads && ThreadOk(s, t) && s.threads[t].pc.ConReserve?
    ensures Kept(s, NextConReserve(s, t, s.threads[t].pc.cur), q, t)
  {
    var s' := NextConReserve(s, t, s.threads[t].pc.cur);
    assert s'.seenPending == s.seenPending + 1;
    assert Guarantee(s, s', t);
    assert ConsumerSide(s', q.inserted);
    ProducerFrame(s, s', t);
    RepresentsFrame(s, q, s');
  }

  lemma ConReadKeeps<T(!new)>(s: State<T>, q: Queue<T>, t: Tid)
    requires Shared(s, q) && t in s.threads && ThreadOk(s, t) && s.threads[t].pc.ConRead?
    ensures Kept(s, NextConRead(s, t, s.threads[t].pc.cur), q, t)
  {
    var cur := s.threads[t].pc.cur;
    var s' := NextConRead(s, t, cur);
    assert s.buffer[Slot(s.size, cur)] == q.inserted[cur];
    assert Guarantee(s, s', t);
    assert ConsumerSide(s', q.inserted);
    ProducerFrame(s, s', t);
    RepresentsFrame(s, q, s');
  }

  /** Committing a read takes the head of the queue, which is the value that was read. */
  lemma TakeRepresents<T(!new)>(s: State<T>, q: Queue<T>, t: Tid)
    requires Shared(s, q) && t in s.threads && s.seenOwner == Some(t) && s.threads[t].pc.ConCommit?
    requires s.threads[t].op.Consume?
    ensures Represents(NextConCommit(s, t, s.threads[t].pc.val), q.(taken := q.taken + 1))
  {
    var val := s.threads[t].pc.val;
    var s' := NextConCommit(s, t, val);
    assert s'.seenCommited == s.seenCommited + 1;
    ReplaySnoc(s.size, s.log, Entry(t, s.threads[t].op, Value(val)));
    FewerHeld(s, s', q.inserted, s.seenCommited, s.insCommited);
  }

  lemma FewerHeld<T(!new)>(s: State<T>, s': State<T>, inserted: seq<T>, lo: nat, hi: nat)
    requires 0 < s.size == |s.buffer| && s'.size == s.size && s'.buffer == s.buffer && Holds(s, inserted, lo, hi)
    ensures Holds(s', inserted, lo + 1, hi)
  {
  }

  lemma ConCommitOwn<T(!new)>(s: State<T>, t: Tid)
    requires t in s.threads && ThreadOk(s, t) && s.threads[t].pc.ConCommit?
    ensures var s' := NextConCommit(s, t, s.threads[t].pc.val); Guarantee(s, s', t) && t in s'.threads && ThreadOk(s', t)
  {
    var val := s.threads[t].pc.val;
    LinNow(s.log, t, s.threads[t], ConUnlock(Return(Value(val))), Value(val));
  }

  lemma ConCommitKeeps<T(!new)>(s: State<T>, q: Queue<T>, t: Tid)
    requires Shared(s, q) && t in s.threads && ThreadOk(s, t) && s.threads[t].pc.ConCommit?
    ensures Kept(s, NextConCommit(s, t, s.threads[t].pc.val), q.(taken := q.taken + 1), t)
  {
    var s' := NextConCommit(s, t, s.threads[t].pc.val);
    assert s'.seenCommited == s.seenCommited + 1;
    ConCommitOwn(s, t);
    TakeRepresents(s, q, t);
    assert ConsumerSide(s', q.inserted);
    ProducerFrame(s, s', t);
  }

  /** The queue after a step: changed only by the two commits. */
  ghost function QueueAfter<T(!new)>(s: State<T>, q: Queue<T>, m: Move<T>): Queue<T> {
    if m.Call? || m.t !in s.threads then q else
      var th := s.threads[m.t];
      match th.pc
      case InsCommit(_) => Queue(q.inserted + th.op.Values(), q.taken)
      case ConCommit(_, _) => q.(taken := q.taken + 1)
      case _ => q
  }

  lemma ProducerBegins<T(!new)>(s: State<T>, q: Queue<T>, m: Move<T>)
    requires Shared(s, q) && Next(s, m) != s && m.Step? && m.t in s.threads && ThreadOk(s, m.t)
    requires var pc := s.threads[m.t].pc; pc.InsLock? || pc.InsLoadSeen? || pc.InsCheck?
    ensures Kept(s, Next(s, m), QueueAfter(s, q, m), m.t)
  {
    match s.threads[m.t].pc
    case InsLock => InsLockKeeps(s, q, m.t, m.spurious);
    case InsLoadSeen => LoadSeenKeeps(s, q, m.t);
    case InsCheck(_) => CheckKeeps(s, q, m.t);
  }

  lemma ProducerInserts<T(!new)>(s: State<T>, q: Queue<T>, m: Move<T>)
    requires Shared(s, q) && NoWrap(s, m) && Next(s, m) != s && m.Step? && m.t in s.threads && ThreadOk(s, m.t)
    requires var pc := s.threads[m.t].pc; pc.InsReserve? || pc.InsWrite? || pc.InsCommit? || pc.InsUnlock?
    ensures Kept(s, Next(s, m), QueueAfter(s, q, m), m.t)
  {
    match s.threads[m.t].pc
    case InsReserve(_) => ReserveKeeps(s, q, m.t);
    case InsWrite(_, _, _) => WriteKeeps(s, q, m.t);
    case InsCommit(_) => InsCommitKeeps(s, q, m.t);
    case InsUnlock(_) => InsUnlockKeeps(s, q, m.t);
  }

  lemma ConsumerBegins<T(!new)>(s: State<T>, q: Queue<T>, m: Move<T>)
    requires Shared(s, q) && Next(s, m) != s && m.Step? && m.t in s.threads && ThreadOk(s, m.t)
    requires var pc := s.threads[m.t].pc; pc.ConLock? || pc.ConLoadInsert? || pc.ConCheck? || pc.ConReserve? || pc.ConUnlock?
    ensures Kept(s, Next(s, m), QueueAfter(s, q, m), m.t)
  {
    match s.threads[m.t].pc
    case ConLock => ConLockKeeps(s, q, m.t, m.spurious);
    case ConLoadInsert => ConLoadKeeps(s, q, m.t);
    case ConCheck(_) => ConCheckKeeps(s, q, m.t);
    case ConReserve(_) => ConReserveKeeps(s, q, m.t);
    case ConUnlock(_) => ConUnlockKeeps(s, q, m.t);
  }

  lemma ConsumerTakes<T(!new)>(s: State<T>, q: Queue<T>, m: Move<T>)
    requires Shared(s, q) && Next(s, m) != s && m.Step? && m.t in s.threads && ThreadOk(s, m.t)
    requires s.threads[m.t].pc.ConCommit?
    ensures Kept(s, Next(s, m), QueueAfter(s, q, m), m.t)
  {
    ConCommitKeeps(s, q, m.t);
  }

  lemma ConsumerReads<T(!new)>(s: State<T>, q: Queue<T>, m: Move<T>)
    requires Shared(s, q) && Next(s, m) != s && m.Step? && m.t in s.threads && ThreadOk(s, m.t)
    requires s.threads[m.t].pc.ConRead?
    ensures Kept(s, Next(s, m), QueueAfter(s, q, m), m.t)
  {
    ConReadKeeps(s, q, m.t);
  }

  predicate Consumes<T>(pc: Pc<T>) {
    ConCritical(pc) || pc.ConLock?
  }

  lemma ConsumerKept<T(!new)>(s: State<T>, q: Queue<T>, m: Move<T>)
    requires Shared(s, q) && Next(s, m) != s && m.Step? && m.t in s.threads && ThreadOk(s, m.t)
    requires Consumes(s.threads[m.t].pc)
    ensures Kept(s, Next(s, m), QueueAfter(s, q, m), m.t)
  {
    var pc := s.threads[m.t].pc;
    if pc.ConRead? {
      ConsumerReads(s, q, m);
    } else if pc.ConCommit? {
      ConsumerTakes(s, q, m);
    } else {
      ConsumerBegins(s, q, m);
    }
  }

  lemma ProducerKept<T(!new)>(s: State<T>, q: Queue<T>, m: Move<T>)
    requires Shared(s, q) && NoWrap(s, m) && Next(s, m) != s && m.Step? && m.t in s.threads && ThreadOk(s, m.t)
    requires !Consumes(s.threads[m.t].pc)
    ensures Kept(s, Next(s, m), QueueAfter(s, q, m), m.t)
  {
    var pc := s.threads[m.t].pc;
    if pc.InsLock? || pc.InsLoadSeen? || pc.InsCheck? {
      ProducerBegins(s, q, m);
    } else {
      ProducerInserts(s, q, m);
    }
  }

  /** Every atomic step of every thread keeps the invariant, and moves the abstract queue only at
      the two commits. */
  lemma StepKeeps<T(!new)>(s: State<T>, q: Queue<T>, m: Move<T>)
    requires Inv(s, q) && NoWrap(s, m)
    ensures Inv(Next(s, m), QueueAfter(s, q, m))
  {
    if Next(s, m) != s {
      if m.Call? {
        CallKeeps(s, q, m);
      } else if Consumes(s.threads[m.t].pc) {
        ConsumerKept(s, q, m);
      } else {
        ProducerKept(s, q, m);
      }
      Assemble(s, q, Next(s, m), QueueAfter(s, q, m), m.t);
    }
  }
}
