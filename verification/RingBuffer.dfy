/** The bounded multi-producer, multi-consumer queue of include/utils/ring_buffer.hpp.

    Every atomic operation of `insert`, `insertAll` and `consume` (a compare-exchange on a spin
    lock, a load or a fetch-and-add of a counter, a write or a read of one buffer slot, the store
    that releases a lock) is one step of one thread, and a run is any finite list of steps of any
    number of threads.  Steps are interleaved sequentially consistently. */
module RingBuffer {
  import opened Options
  import opened Words

  type Tid = nat

  datatype Op<T> =
    | Insert(value: T, wait: bool)
    | InsertAll(values: seq<T>, wait: bool)
    | Consume(wait: bool)
  {
    /** The elements the operation adds. */
    function Values(): seq<T> {
      match this
      case Insert(v, _) => [v]
      case InsertAll(vs, _) => vs
      case Consume(_) => []
    }
  }

  /** `Full` is the return value `~0ull`, `Empty` is `std::nullopt`. */
  datatype Result<T> = Ticket(n: nat) | Full | Value(v: T) | Empty

  /** What the critical section decided when the lock is about to be released. */
  datatype Verdict<T> = Return(res: Result<T>) | Retry

  /** Where a thread is inside an operation: the next atomic operation it performs. */
  datatype Pc<T> =
    | Idle
    | InsLock                                    // compare-exchange on _insert.mutex
    | InsLoadSeen                                // load _seen.commited
    | InsCheck(seenHead: nat)                    // load _insert.pending and test the guard
    | InsReserve(cur: nat)                       // fetch_add on _insert.pending
    | InsWrite(cur: nat, k: nat, pos: nat)       // write the k-th element into slot pos
    | InsCommit(cur: nat)                        // fetch_add on _insert.commited
    | InsUnlock(verdict: Verdict<T>)             // release _insert.mutex
    | ConLock                                    // compare-exchange on _seen.mutex
    | ConLoadInsert                              // load _insert.commited
    | ConCheck(curInsert: nat)                   // load _seen.pending and compare
    | ConReserve(cur: nat)                       // fetch_add on _seen.pending
    | ConRead(cur: nat)                          // read the slot
    | ConCommit(cur: nat, val: T)                // fetch_add on _seen.commited
    | ConUnlock(verdict: Verdict<T>)             // release _seen.mutex
    | Returned(res: Result<T>)

  /** One operation that took effect, in the order the operations took effect. */
  datatype Entry<T> = Entry(t: Tid, op: Op<T>, res: Result<T>)

  /** A thread: its operation, its program point, and two auxiliary values: the length of the log
      when the operation was called, and the log index where it took effect. */
  datatype Thread<T> = Thread(op: Op<T>, pc: Pc<T>, since: nat, lin: Option<nat>)

  datatype State<T> = State(
    size: nat, buffer: seq<T>,
    insPending: nat, insCommited: nat, insOwner: Option<Tid>,
    seenPending: nat, seenCommited: nat, seenOwner: Option<Tid>,
    threads: map<Tid, Thread<T>>,
    log: seq<Entry<T>>)

  datatype Move<T> =
    | Call(t: Tid, op: Op<T>)
    | Step(t: Tid, spurious: bool)     // `spurious`: compare_exchange_weak fails although the lock is free

  function Init<T>(size: nat, blank: T): State<T> {
    State(size, seq(size, _ => blank), 0, 0, None, 0, 0, None, map[], [])
  }

  /** The slot of a ticket, `ticket % _size` (RingBufferSafety.SlotIsModulo). */
  function Slot(size: nat, ticket: nat): (slot: nat)
    requires size > 0
    ensures slot < size
  {
    if ticket < size then ticket else Slot(size, ticket - size)
  }

  // ---------------------------------------------------------------------------------------------
  // The steps
  // ---------------------------------------------------------------------------------------------

  /** The guards of `insert` and `insertAll`, in unsigned 64-bit arithmetic. */
  predicate Room<T>(op: Op<T>, size: nat, cur: nat, seenHead: nat) {
    match op
    case Insert(_, _) => Sub64(cur, seenHead) < size
    case InsertAll(vs, _) => size >= |vs| && Sub64(cur, seenHead) < Sub64(Add64(size, 1), |vs|)
    case Consume(_) => false
  }

  function At<T>(s: State<T>, t: Tid, pc: Pc<T>): State<T>
    requires t in s.threads
  {
    s.(threads := s.threads[t := s.threads[t].(pc := pc)])
  }

  /** Thread `t` moves to `pc` and its operation takes effect with result `res`. */
  function Linearize<T>(s: State<T>, t: Tid, pc: Pc<T>, res: Result<T>): State<T>
    requires t in s.threads
  {
    s.(threads := s.threads[t := s.threads[t].(pc := pc, lin := Some(|s.log|))],
       log := s.log + [Entry(t, s.threads[t].op, res)])
  }

  function Next<T>(s: State<T>, m: Move<T>): State<T>
    requires 0 < s.size == |s.buffer|
    ensures Next(s, m).size == |Next(s, m).buffer| == s.size
  {
    match m
    case Call(t, op) =>
      if t !in s.threads || s.threads[t].pc.Idle? || s.threads[t].pc.Returned? then
        s.(threads := s.threads[t := Thread(op, if op.Consume? then ConLock else InsLock, |s.log|, None)])
      else s
    case Step(t, spurious) =>
      if t !in s.threads then s else
      match s.threads[t].pc
      case Idle => s
      case Returned(_) => s
      case InsLock => NextInsLock(s, t, spurious)
      case InsLoadSeen => NextInsLoadSeen(s, t)
      case InsCheck(seenHead) => NextInsCheck(s, t, seenHead)
      case InsReserve(cur) => NextInsReserve(s, t, cur)
      case InsWrite(cur, k, pos) => NextInsWrite(s, t, cur, k, pos)
      case InsCommit(cur) => NextInsCommit(s, t, cur)
      case InsUnlock(_) => NextUnlockIns(s, t)
      case ConLock => NextConLock(s, t, spurious)
      case ConLoadInsert => NextConLoadInsert(s, t)
      case ConCheck(curInsert) => NextConCheck(s, t, curInsert)
      case ConReserve(cur) => NextConReserve(s, t, cur)
      case ConRead(cur) => NextConRead(s, t, cur)
      case ConCommit(cur, val) => NextConCommit(s, t, val)
      case ConUnlock(_) => NextUnlockCon(s, t)
  }

  function NextInsLock<T>(s: State<T>, t: Tid, spurious: bool): State<T>
    requires t in s.threads
  {
    if spurious || s.insOwner.Some? then s else At(s, t, InsLoadSeen).(insOwner := Some(t))
  }

  /** `_seen.commited.load()`.  `_insert.pending` cannot change while the lock is held, so the
      outcome of the guard is settled here, and a failing `insert` takes effect here. */
  function NextInsLoadSeen<T>(s: State<T>, t: Tid): State<T>
    requires t in s.threads
  {
    var op := s.threads[t].op;
    if !op.wait && !Room(op, s.size, s.insPending, s.seenCommited)
    then Linearize(s, t, InsCheck(s.seenCommited), Full)
    else At(s, t, InsCheck(s.seenCommited))
  }

  function NextInsCheck<T>(s: State<T>, t: Tid, seenHead: nat): State<T>
    requires t in s.threads
  {
    var op := s.threads[t].op;
    if Room(op, s.size, s.insPending, seenHead) then At(s, t, InsReserve(s.insPending))
    else At(s, t, InsUnlock(if op.wait then Retry else Return(Full)))
  }

  function NextInsReserve<T>(s: State<T>, t: Tid, cur: nat): State<T>
    requires t in s.threads && s.size > 0
  {
    var n := |s.threads[t].op.Values()|;
    At(s, t, if n == 0 then InsCommit(cur) else InsWrite(cur, 0, Slot(s.size, cur)))
      .(insPending := Add64(s.insPending, n))
  }

  /** `insert` writes slot `curInsert % _size`; `insertAll` advances `pos` with a manual wrap. */
  function NextInsWrite<T>(s: State<T>, t: Tid, cur: nat, k: nat, pos: nat): State<T>
    requires t in s.threads && |s.buffer| == s.size
    ensures |NextInsWrite(s, t, cur, k, pos).buffer| == s.size == NextInsWrite(s, t, cur, k, pos).size
  {
    var vals := s.threads[t].op.Values();
    if k >= |vals| || pos >= s.size then s else
      var pos' := if pos + 1 >= s.size then 0 else pos + 1;
      At(s, t, if k + 1 == |vals| then InsCommit(cur) else InsWrite(cur, k + 1, pos'))
        .(buffer := s.buffer[pos := vals[k]])
  }

  function NextInsCommit<T>(s: State<T>, t: Tid, cur: nat): State<T>
    requires t in s.threads
  {
    Linearize(s, t, InsUnlock(Return(Ticket(cur))), Ticket(cur))
      .(insCommited := Add64(s.insCommited, |s.threads[t].op.Values()|))
  }

  function NextUnlockIns<T>(s: State<T>, t: Tid): State<T>
    requires t in s.threads && s.threads[t].pc.InsUnlock?
  {
    var v := s.threads[t].pc.verdict;
    At(s, t, if v.Retry? then InsLock else Returned(v.res)).(insOwner := None)
  }

  function NextUnlockCon<T>(s: State<T>, t: Tid): State<T>
    requires t in s.threads && s.threads[t].pc.ConUnlock?
  {
    var v := s.threads[t].pc.verdict;
    At(s, t, if v.Retry? then ConLock else Returned(v.res)).(seenOwner := None)
  }

  function NextConLock<T>(s: State<T>, t: Tid, spurious: bool): State<T>
    requires t in s.threads
  {
    if spurious || s.seenOwner.Some? then s else At(s, t, ConLoadInsert).(seenOwner := Some(t))
  }

  /** `_insert.commited.load()`.  An empty `consume` takes effect here. */
  function NextConLoadInsert<T>(s: State<T>, t: Tid): State<T>
    requires t in s.threads
  {
    if !s.threads[t].op.wait && !(s.insCommited > s.seenPending)
    then Linearize(s, t, ConCheck(s.insCommited), Empty)
    else At(s, t, ConCheck(s.insCommited))
  }

  function NextConCheck<T>(s: State<T>, t: Tid, curInsert: nat): State<T>
    requires t in s.threads
  {
    if curInsert > s.seenPending then At(s, t, ConReserve(s.seenPending))
    else At(s, t, ConUnlock(if s.threads[t].op.wait then Retry else Return(Empty)))
  }

  function NextConReserve<T>(s: State<T>, t: Tid, cur: nat): State<T>
    requires t in s.threads
  {
    At(s, t, ConRead(cur)).(seenPending := Add64(s.seenPending, 1))
  }

  function NextConRead<T>(s: State<T>, t: Tid, cur: nat): State<T>
    requires t in s.threads && 0 < s.size == |s.buffer|
  {
    At(s, t, ConCommit(cur, s.buffer[Slot(s.size, cur)]))
  }

  function NextConCommit<T>(s: State<T>, t: Tid, val: T): State<T>
    requires t in s.threads
  {
    Linearize(s, t, ConUnlock(Return(Value(val))), Value(val)).(seenCommited := Add64(s.seenCommited, 1))
  }

  // ---------------------------------------------------------------------------------------------
  // The sequential specification: an atomic bounded FIFO queue
  // ---------------------------------------------------------------------------------------------

  /** Everything ever inserted, in ticket order, and how much of it was taken. */
  datatype Queue<T> = Queue(inserted: seq<T>, taken: nat)

  /** What one operation may do to the queue; None if the result is not a correct one. */
  function Apply<T(==)>(size: nat, q: Queue<T>, e: Entry<T>): Option<Queue<T>> {
    var vals := e.op.Values();
    match e.res
    case Ticket(n) =>
      if !e.op.Consume? && n == |q.inserted| && |q.inserted| + |vals| <= q.taken + size
      then Some(Queue(q.inserted + vals, q.taken)) else None
    case Full =>
      if !e.op.Consume? && !e.op.wait && |q.inserted| + |vals| > q.taken + size then Some(q) else None
    case Value(v) =>
      if e.op.Consume? && q.taken < |q.inserted| && v == q.inserted[q.taken]
      then Some(q.(taken := q.taken + 1)) else None
    case Empty =>
      if e.op.Consume? && !e.op.wait && q.taken == |q.inserted| then Some(q) else None
  }

  function Replay<T(==)>(size: nat, log: seq<Entry<T>>): Option<Queue<T>> {
    if log == [] then Some(Queue([], 0)) else
      match Replay(size, log[..|log| - 1])
      case None => None
      case Some(q) => Apply(size, q, log[|log| - 1])
  }

  function Run<T>(s: State<T>, moves: seq<Move<T>>): State<T>
    requires 0 < s.size == |s.buffer|
    ensures Run(s, moves).size == |Run(s, moves).buffer| == s.size
  {
    if moves == [] then s else Next(Run(s, moves[..|moves| - 1]), moves[|moves| - 1])
  }

  /** The 64-bit counters do not overflow in this step. */
  predicate NoWrap<T>(s: State<T>, m: Move<T>) {
    (m.Step? && m.t in s.threads && s.threads[m.t].pc.InsReserve?) ==>
      s.insPending + |s.threads[m.t].op.Values()| < WORD
  }

  predicate NoWrapRun<T>(s: State<T>, moves: seq<Move<T>>)
    requires 0 < s.size == |s.buffer|
  {
    moves == [] ||
      (NoWrapRun(s, moves[..|moves| - 1]) && NoWrap(Run(s, moves[..|moves| - 1]), moves[|moves| - 1]))
  }
}
