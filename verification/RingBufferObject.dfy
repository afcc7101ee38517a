/** The ring buffer as the object it is: four counters, two lock bits and a buffer that the atomic
    operations update in place.  Each method is what one thread does in one atomic operation. */
module RingBufferObject {
  import opened Options
  import opened Words
  import opened RingBuffer
  import opened RingBufferSafety
  import opened RingBufferTheorems

  class Ring<T(!new)> {
    const size: nat
    const buffer: array<T>
    var insPending: nat
    var insCommited: nat
    var insOwner: Option<Tid>
    var seenPending: nat
    var seenCommited: nat
    var seenOwner: Option<Tid>
    var threads: map<Tid, Thread<T>>
    var log: seq<Entry<T>>           // auxiliary: the operations in the order they took effect

    ghost function View(): State<T>
      reads this, buffer
    {
      State(size, buffer[..], insPending, insCommited, insOwner, seenPending, seenCommited, seenOwner, threads, log)
    }

    ghost predicate Valid()
      reads this, buffer
    {
      0 < size == buffer.Length
    }

    constructor (size: nat, blank: T)
      requires 0 < size
      ensures Valid() && fresh(buffer) && View() == Init(size, blank)
    {
      this.size := size;
      buffer := new T[size](_ => blank);
      insPending, insCommited, insOwner := 0, 0, None;
      seenPending, seenCommited, seenOwner := 0, 0, None;
      threads, log := map[], [];
      new;
      assert buffer[..] == seq(size, _ => blank);
    }

    /** A thread that is not inside an operation starts one. */
    method Begin(t: Tid, op: Op<T>)
      requires Valid()
      modifies this
      ensures Valid() && View() == Next(old(View()), Call(t, op))
    {
      if t !in threads || threads[t].pc.Idle? || threads[t].pc.Returned? {
        threads := threads[t := Thread(op, if op.Consume? then ConLock else InsLock, |log|, None)];
      }
    }

    method MoveTo(t: Tid, pc: Pc<T>)
      requires Valid() && t in threads
      modifies this`threads
      ensures threads == old(threads)[t := old(threads)[t].(pc := pc)]
    {
      threads := threads[t := threads[t].(pc := pc)];
    }

    method TakeEffect(t: Tid, pc: Pc<T>, res: Result<T>)
      requires Valid() && t in threads
      modifies this`threads, this`log
      ensures threads == old(threads)[t := old(threads)[t].(pc := pc, lin := Some(|old(log)|))]
      ensures log == old(log) + [Entry(t, old(threads)[t].op, res)]
    {
      var op := threads[t].op;
      threads := threads[t := threads[t].(pc := pc, lin := Some(|log|))];
      log := log + [Entry(t, op, res)];
    }

    /** The critical section of `insert` and `insertAll`, one atomic operation at a time. */
    method ProducerStep(t: Tid, spurious: bool)
      requires Valid() && t in threads
      requires threads[t].pc.InsLock? || InsCritical(threads[t].pc)
      modifies this, buffer
      ensures Valid() && View() == Next(old(View()), Step(t, spurious))
    {
      var op := threads[t].op;
      var vals := op.Values();
      match threads[t].pc
      case InsLock =>
        if !spurious && insOwner.None? {
          insOwner := Some(t);
          MoveTo(t, InsLoadSeen);
        }
      case InsLoadSeen =>
        if !op.wait && !Room(op, size, insPending, seenCommited) {
          TakeEffect(t, InsCheck(seenCommited), Full);
        } else {
          MoveTo(t, InsCheck(seenCommited));
        }
      case InsCheck(seenHead) =>
        if Room(op, size, insPending, seenHead) {
          MoveTo(t, InsReserve(insPending));
        } else {
          MoveTo(t, InsUnlock(if op.wait then Retry else Return(Full)));
        }
      case InsReserve(cur) =>
        insPending := Add64(insPending, |vals|);
        MoveTo(t, if |vals| == 0 then InsCommit(cur) else InsWrite(cur, 0, Slot(size, cur)));
      case InsWrite(cur, k, pos) =>
        if k < |vals| && pos < size {
          buffer[pos] := vals[k];
          assert buffer[..] == old(buffer[..])[pos := vals[k]];
          MoveTo(t, if k + 1 == |vals| then InsCommit(cur)
                    else InsWrite(cur, k + 1, if pos + 1 >= size then 0 else pos + 1));
        }
      case InsCommit(cur) =>
        insCommited := Add64(insCommited, |vals|);
        TakeEffect(t, InsUnlock(Return(Ticket(cur))), Ticket(cur));
      case InsUnlock(verdict) =>
        insOwner := None;
        MoveTo(t, if verdict.Retry? then InsLock else Returned(verdict.res));
    }

    /** The critical section of `consume`. */
    method ConsumerStep(t: Tid, spurious: bool)
      requires Valid() && t in threads
      requires threads[t].pc.ConLock? || ConCritical(threads[t].pc)
      modifies this
      ensures Valid() && View() == Next(old(View()), Step(t, spurious))
    {
      var op := threads[t].op;
      match threads[t].pc
      case ConLock =>
        if !spurious && seenOwner.None? {
          seenOwner := Some(t);
          MoveTo(t, ConLoadInsert);
        }
      case ConLoadInsert =>
        if !op.wait && !(insCommited > seenPending) {
          TakeEffect(t, ConCheck(insCommited), Empty);
        } else {
          MoveTo(t, ConCheck(insCommited));
        }
      case ConCheck(curInsert) =>
        if curInsert > seenPending {
          MoveTo(t, ConReserve(seenPending));
        } else {
          MoveTo(t, ConUnlock(if op.wait then Retry else Return(Empty)));
        }
      case ConReserve(cur) =>
        seenPending := Add64(seenPending, 1);
        MoveTo(t, ConRead(cur));
      case ConRead(cur) =>
        MoveTo(t, ConCommit(cur, buffer[Slot(size, cur)]));
      case ConCommit(cur, val) =>
        seenCommited := Add64(seenCommited, 1);
        TakeEffect(t, ConUnlock(Return(Value(val))), Value(val));
      case ConUnlock(verdict) =>
        seenOwner := None;
        MoveTo(t, if verdict.Retry? then ConLock else Returned(verdict.res));
    }
  }
}
