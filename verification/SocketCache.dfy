/** The cache of idle sockets and its eviction order: src/network/cache.cpp. */
module SocketCache {
  import opened Options
  import ConnectionPool

  const EVICTION_LIMIT := 100

  /** An entry has one owner, the cache or a caller; `id` is its address. */
  datatype SocketEntry = SocketEntry(id: nat, timestamp: nat, fd: int, port: nat, hostname: string)

  type Stamped = (nat, SocketEntry)

  /** `cache` is the multimap: for each key its entries in the order of insertion. `fifo` maps timestamps to entries, in
      the order of the timestamps. `closed` are the descriptors that the cache has closed. */
  datatype State = State(cache: map<string, seq<SocketEntry>>, fifo: seq<Stamped>, timestamp: nat, closed: seq<int>)

  const EMPTY := State(map[], [], 0, [])

  function KeyOf(hostname: string, port: nat): string {
    ConnectionPool.MakeKey(hostname, port, false)
  }

  function Range(cache: map<string, seq<SocketEntry>>, key: string): seq<SocketEntry> {
    if key in cache then cache[key] else []
  }

  // ---------------------------------------------------------------------------------------------
  // The operations, on values
  // ---------------------------------------------------------------------------------------------

  /** The first entry with an open descriptor, or the number of entries. */
  function FirstOpen(range: seq<SocketEntry>): (i: nat)
    ensures i <= |range| && (i < |range| ==> range[i].fd >= 0)
    ensures forall k :: 0 <= k < i ==> range[k].fd < 0
  {
    if range == [] || range[0].fd >= 0 then 0
    else
      assert forall k :: 1 <= k < |range| ==> range[k] == range[1..][k - 1];
      1 + FirstOpen(range[1..])
  }

  function IndexOf(range: seq<SocketEntry>, e: SocketEntry): (i: nat)
    ensures i <= |range| && (i < |range| ==> range[i] == e) && (e in range ==> i < |range|)
    ensures forall k :: 0 <= k < i ==> range[k] != e
  {
    if range == [] || range[0] == e then 0
    else
      assert forall k :: 1 <= k < |range| ==> range[k] == range[1..][k - 1];
      1 + IndexOf(range[1..], e)
  }

  function Without(range: seq<SocketEntry>, i: nat): seq<SocketEntry>
    requires i < |range|
  {
    range[..i] + range[i + 1..]
  }

  /** Erases the entry with a timestamp, if there is one. */
  function Erased(fifo: seq<Stamped>, timestamp: nat): seq<Stamped> {
    if fifo == [] then [] else if fifo[0].0 == timestamp then fifo[1..] else [fifo[0]] + Erased(fifo[1..], timestamp)
  }

  /** `_fifo[timestamp] = e`. */
  function Put(fifo: seq<Stamped>, timestamp: nat, e: SocketEntry): seq<Stamped> {
    if fifo == [] then [(timestamp, e)]
    else if fifo[0].0 == timestamp then [(timestamp, e)] + fifo[1..]
    else if timestamp < fifo[0].0 then [(timestamp, e)] + fifo
    else [fifo[0]] + Put(fifo[1..], timestamp, e)
  }

  /** `resolve`; `id` is the address of a new entry. The key is made of host and port, `tls` plays no part. */
  function Resolved(s: State, hostname: string, port: nat, tls: bool, id: nat): (State, SocketEntry) {
    var key := KeyOf(hostname, port);
    var range := Range(s.cache, key);
    var i := FirstOpen(range);
    if i < |range| then
      (s.(cache := s.cache[key := Without(range, i)], fifo := Erased(s.fifo, range[i].timestamp)), range[i])
    else (s, SocketEntry(id, 0, -1, port, hostname))
  }

  /** Removes the entry with the least timestamp. */
  function Evicted(s: State): State
    requires s.fifo != []
  {
    var oldest := s.fifo[0].1;
    var key := KeyOf(oldest.hostname, oldest.port);
    var range := Range(s.cache, key);
    var i := IndexOf(range, oldest);
    s.(cache := if i < |range| then s.cache[key := Without(range, i)] else s.cache, fifo := s.fifo[1..])
  }

  function Closed(s: State, e: Option<SocketEntry>): State {
    if e.Some? && e.value.fd >= 0 then s.(closed := s.closed + [e.value.fd]) else s
  }

  /** Keeps an entry with the next timestamp. */
  function Stored(s: State, e: SocketEntry): State {
    var key := KeyOf(e.hostname, e.port);
    var stored := e.(timestamp := s.timestamp);
    s.(cache := s.cache[key := Range(s.cache, key) + [stored]], fifo := Put(s.fifo, s.timestamp, stored),
       timestamp := s.timestamp + 1)
  }

  /** `stopSocket`. */
  function Stopped(s: State, e: Option<SocketEntry>, cachedEntries: nat, reuse: bool): State {
    if !reuse || e.None? || e.value.fd < 0 then Closed(s, e)
    else Stored(if cachedEntries >= EVICTION_LIMIT && s.fifo != [] then Evicted(s) else s, e.value)
  }

  // ---------------------------------------------------------------------------------------------
  // Agreement of the two indexes
  // ---------------------------------------------------------------------------------------------

  predicate Resident(s: State, e: SocketEntry) {
    e in Range(s.cache, KeyOf(e.hostname, e.port))
  }

  ghost predicate FifoOk(fifo: seq<Stamped>, timestamp: nat) {
    && (forall i, j :: 0 <= i < j < |fifo| ==> fifo[i].0 < fifo[j].0)
    && (forall i :: 0 <= i < |fifo| ==> fifo[i].0 == fifo[i].1.timestamp < timestamp && fifo[i].1.fd >= 0)
  }

  ghost predicate RangeOk(range: seq<SocketEntry>, key: string, fifo: seq<Stamped>) {
    && (forall e :: e in range ==> KeyOf(e.hostname, e.port) == key && (e.timestamp, e) in fifo)
    && (forall i, j :: 0 <= i < j < |range| ==> range[i] != range[j])
  }

  ghost predicate AllRangesOk(s: State) {
    forall key {:trigger Range(s.cache, key)} :: RangeOk(Range(s.cache, key), key, s.fifo)
  }

  ghost predicate AllResident(s: State) {
    forall x :: x in s.fifo ==> Resident(s, x.1)
  }

  /** Both indexes hold the same entries, each once, with an open descriptor and a timestamp of its own. */
  ghost predicate Agree(s: State) {
    FifoOk(s.fifo, s.timestamp) && AllRangesOk(s) && AllResident(s)
  }

  /** What is resident is exactly what the eviction order knows. */
  lemma SameEntries(s: State, e: SocketEntry)
    requires Agree(s)
    ensures Resident(s, e) <==> (e.timestamp, e) in s.fifo
    ensures Resident(s, e) ==> e.fd >= 0 && e.timestamp < s.timestamp
  {
    var key := KeyOf(e.hostname, e.port);
    assert RangeOk(Range(s.cache, key), key, s.fifo);
  }

  lemma WithoutIs(range: seq<SocketEntry>, i: nat)
    requires i < |range| && forall a, b :: 0 <= a < b < |range| ==> range[a] != range[b]
    ensures forall a, b :: 0 <= a < b < |Without(range, i)| ==> Without(range, i)[a] != Without(range, i)[b]
    ensures forall e :: e in Without(range, i) <==> e in range && e != range[i]
  {
    var less := Without(range, i);
    assert forall a :: 0 <= a < |less| ==> less[a] == range[if a < i then a else a + 1];
    forall e | e in range && e != range[i]
      ensures e in less
    {
      var a :| 0 <= a < |range| && range[a] == e;
      assert less[if a < i then a else a - 1] == e;
    }
  }

  /** The rest of the eviction order, behind its first entry. */
  lemma TailIs(fifo: seq<Stamped>, bound: nat)
    requires FifoOk(fifo, bound) && fifo != []
    ensures FifoOk(fifo[1..], bound)
    ensures forall x :: x in fifo <==> x == fifo[0] || x in fifo[1..]
    ensures forall x :: x in fifo[1..] ==> fifo[0].0 < x.0
  {
  }

  lemma HeadBack(first: Stamped, rest: seq<Stamped>, bound: nat)
    requires FifoOk(rest, bound) && first.0 == first.1.timestamp < bound && first.1.fd >= 0
    requires forall x :: x in rest ==> first.0 < x.0
    ensures FifoOk([first] + rest, bound)
    ensures forall x :: x in [first] + rest <==> x == first || x in rest
  {
    var fifo := [first] + rest;
    forall j | 0 < j < |fifo|
      ensures first.0 < fifo[j].0
    {
      assert fifo[j] == rest[j - 1] && rest[j - 1] in rest;
    }
  }

  lemma {:induction false} ErasedIs(fifo: seq<Stamped>, timestamp: nat, bound: nat)
    requires FifoOk(fifo, bound)
    ensures FifoOk(Erased(fifo, timestamp), bound)
    ensures forall x :: x in Erased(fifo, timestamp) <==> x in fifo && x.0 != timestamp
  {
    if fifo != [] {
      TailIs(fifo, bound);
      if fifo[0].0 != timestamp {
        ErasedIs(fifo[1..], timestamp, bound);
        HeadBack(fifo[0], Erased(fifo[1..], timestamp), bound);
      }
    }
  }

  /** A timestamp above all others goes to the end. */
  lemma {:induction false} PutAtEnd(fifo: seq<Stamped>, timestamp: nat, e: SocketEntry)
    requires FifoOk(fifo, timestamp)
    ensures Put(fifo, timestamp, e) == fifo + [(timestamp, e)]
  {
    if fifo != [] {
      assert FifoOk(fifo[1..], timestamp);
      PutAtEnd(fifo[1..], timestamp, e);
      assert fifo + [(timestamp, e)] == [fifo[0]] + (fifo[1..] + [(timestamp, e)]);
    }
  }

  /** One entry leaves both indexes. */
  lemma Leaves(s: State, key: string, i: nat, fifo: seq<Stamped>)
    requires Agree(s) && key in s.cache && i < |s.cache[key]| && FifoOk(fifo, s.timestamp)
    requires forall x :: x in fifo <==> x in s.fifo && x.0 != s.cache[key][i].timestamp
    ensures var t := s.(cache := s.cache[key := Without(s.cache[key], i)], fifo := fifo);
            Agree(t) && forall e :: Resident(t, e) <==> Resident(s, e) && e != s.cache[key][i]
  {
    var range, gone := s.cache[key], s.cache[key][i];
    var t := s.(cache := s.cache[key := Without(range, i)], fifo := fifo);
    assert RangeOk(Range(s.cache, key), key, s.fifo);
    WithoutIs(range, i);
    SameEntries(s, gone);
    forall k
      ensures RangeOk(Range(t.cache, k), k, fifo)
    {
      assert RangeOk(Range(s.cache, k), k, s.fifo);
      forall e | e in Range(t.cache, k)
        ensures (e.timestamp, e) in fifo
      {
        StampsApart(s, e, gone);
      }
    }
  }

  /** Resident entries with the same timestamp are the same. */
  lemma StampsApart(s: State, e: SocketEntry, other: SocketEntry)
    requires Agree(s)
    ensures Resident(s, e) && Resident(s, other) && e.timestamp == other.timestamp ==> e == other
  {
    SameEntries(s, e);
    SameEntries(s, other);
    if Resident(s, e) && Resident(s, other) && e.timestamp == other.timestamp {
      var i :| 0 <= i < |s.fifo| && s.fifo[i] == (e.timestamp, e);
      var j :| 0 <= j < |s.fifo| && s.fifo[j] == (other.timestamp, other);
      assert i == j;
    }
  }

  ghost predicate Available(s: State, hostname: string, port: nat) {
    exists e :: Resident(s, e) && e.hostname == hostname && e.port == port
  }

  /** `resolve` hands out a resident entry whenever there is one for the host and port, and takes it from both indexes. */
  lemma ResolvedKeeps(s: State, hostname: string, port: nat, tls: bool, id: nat)
    requires Agree(s)
    ensures var (t, e) := Resolved(s, hostname, port, tls, id);
            && Agree(t) && t.timestamp == s.timestamp && e.hostname == hostname && e.port == port
            && (if Available(s, hostname, port)
                then Resident(s, e) && e.fd >= 0 && forall x :: Resident(t, x) <==> Resident(s, x) && x != e
                else t == s && e == SocketEntry(id, 0, -1, port, hostname))
  {
    var key := KeyOf(hostname, port);
    var range := Range(s.cache, key);
    assert RangeOk(range, key, s.fifo);
    var i := FirstOpen(range);
    if i < |range| {
      var e := range[i];
      ConnectionPool.KeyInjective(e.hostname, e.port, false, hostname, port, false);
      ErasedIs(s.fifo, e.timestamp, s.timestamp);
      Leaves(s, key, i, Erased(s.fifo, e.timestamp));
    } else {
      AvailableIsOpen(s, hostname, port);
    }
  }

  /** So a socket that one caller kept for TLS is what the next gets who asks for the host and port without TLS, and the other
      way round: whatever `tls` is, a socket that was stored as the only one for its host and port is handed out. */
  lemma SharedAcrossTls(s: State, e: SocketEntry, cachedEntries: nat, tls: bool, id: nat)
    requires Agree(s) && e.fd >= 0 && !Available(s, e.hostname, e.port)
    ensures Resolved(Stopped(s, Some(e), cachedEntries, true), e.hostname, e.port, tls, id).1 == e.(timestamp := s.timestamp)
  {
    var t := Stopped(s, Some(e), cachedEntries, true);
    StoppedKeeps(s, Some(e), cachedEntries, true);
    ResolvedKeeps(t, e.hostname, e.port, tls, id);
    assert Resident(t, e.(timestamp := s.timestamp));
  }

  lemma AvailableIsOpen(s: State, hostname: string, port: nat)
    requires Agree(s)
    ensures Available(s, hostname, port) ==>
      var range := Range(s.cache, KeyOf(hostname, port)); exists k :: 0 <= k < |range| && range[k].fd >= 0
  {
    var range := Range(s.cache, KeyOf(hostname, port));
    if e :| Resident(s, e) && e.hostname == hostname && e.port == port {
      SameEntries(s, e);
      var k :| 0 <= k < |range| && range[k] == e;
      assert range[k].fd >= 0;
    }
  }

  /** The eviction removes from both indexes the entry that was stored least recently; its descriptor is not closed. */
  lemma EvictedKeeps(s: State)
    requires Agree(s) && s.fifo != []
    ensures Agree(Evicted(s)) && Evicted(s).closed == s.closed && Evicted(s).timestamp == s.timestamp
    ensures Resident(s, s.fifo[0].1)
    ensures forall x :: Resident(Evicted(s), x) <==> Resident(s, x) && x != s.fifo[0].1
    ensures forall x :: Resident(s, x) ==> s.fifo[0].1.timestamp <= x.timestamp
  {
    var oldest := s.fifo[0].1;
    assert s.fifo[0] in s.fifo;
    var key := KeyOf(oldest.hostname, oldest.port);
    ErasedIs(s.fifo, oldest.timestamp, s.timestamp);
    assert Erased(s.fifo, oldest.timestamp) == s.fifo[1..];
    Leaves(s, key, IndexOf(s.cache[key], oldest), s.fifo[1..]);
    forall x | Resident(s, x)
      ensures oldest.timestamp <= x.timestamp
    {
      SameEntries(s, x);
      var j :| 0 <= j < |s.fifo| && s.fifo[j] == (x.timestamp, x);
    }
  }

  /** The state with one more entry, under its own timestamp. */
  function Entered(s: State, e: SocketEntry): State {
    var key := KeyOf(e.hostname, e.port);
    s.(cache := s.cache[key := Range(s.cache, key) + [e]], fifo := s.fifo + [(s.timestamp, e)], timestamp := s.timestamp + 1)
  }

  lemma Enters(s: State, e: SocketEntry)
    requires Agree(s) && e.fd >= 0 && e.timestamp == s.timestamp
    ensures Agree(Entered(s, e)) && forall x :: Resident(Entered(s, e), x) <==> Resident(s, x) || x == e
  {
    var t := Entered(s, e);
    forall x
      ensures x in t.fifo <==> x in s.fifo || x == (s.timestamp, e)
    {
    }
    forall k
      ensures RangeOk(Range(t.cache, k), k, t.fifo)
    {
      EnteredRange(s, e, k);
    }
  }

  lemma EnteredRange(s: State, e: SocketEntry, key: string)
    requires Agree(s) && e.timestamp == s.timestamp
    ensures RangeOk(Range(Entered(s, e).cache, key), key, Entered(s, e).fifo)
  {
    var t := Entered(s, e);
    assert RangeOk(Range(s.cache, key), key, s.fifo);
    SameEntries(s, e);
    assert (s.timestamp, e) == t.fifo[|s.fifo|];
  }

  /** `stopSocket` keeps the agreement. A reusable entry becomes resident with the newest timestamp; when the caller counts a
      hundred entries or more, the least recently stored one leaves; in all other cases nothing changes but the descriptor. */
  lemma StoppedKeeps(s: State, e: Option<SocketEntry>, cachedEntries: nat, reuse: bool)
    requires Agree(s)
    ensures Agree(Stopped(s, e, cachedEntries, reuse))
    ensures var t := Stopped(s, e, cachedEntries, reuse);
            if reuse && e.Some? && e.value.fd >= 0 then
              && t.timestamp == s.timestamp + 1 && t.closed == s.closed
              && forall x :: Resident(t, x) <==>
                   || x == e.value.(timestamp := s.timestamp)
                   || (Resident(s, x) && !(cachedEntries >= 100 && s.fifo != [] && x == s.fifo[0].1))
            else
              t == s.(closed := if e.Some? && e.value.fd >= 0 then s.closed + [e.value.fd] else s.closed)
  {
    if reuse && e.Some? && e.value.fd >= 0 {
      var evict := cachedEntries >= EVICTION_LIMIT && s.fifo != [];
      if evict { EvictedKeeps(s); }
      StoredKeeps(if evict then Evicted(s) else s, e.value);
    }
  }

  lemma StoredKeeps(s: State, e: SocketEntry)
    requires Agree(s) && e.fd >= 0
    ensures Agree(Stored(s, e))
    ensures forall x :: Resident(Stored(s, e), x) <==> Resident(s, x) || x == e.(timestamp := s.timestamp)
  {
    PutAtEnd(s.fifo, s.timestamp, e.(timestamp := s.timestamp));
    Enters(s, e.(timestamp := s.timestamp));
  }

  // ---------------------------------------------------------------------------------------------
  // Runs
  // ---------------------------------------------------------------------------------------------

  datatype Op = Resolve(hostname: string, port: nat, tls: bool, id: nat) | Stop(entry: Option<SocketEntry>, cachedEntries: nat, reuse: bool)

  function Apply(s: State, op: Op): State {
    match op
    case Resolve(hostname, port, tls, id) => Resolved(s, hostname, port, tls, id).0
    case Stop(entry, cachedEntries, reuse) => Stopped(s, entry, cachedEntries, reuse)
  }

  function Run(s: State, ops: seq<Op>): State
    decreases |ops|
  {
    if ops == [] then s else Run(Apply(s, ops[0]), ops[1..])
  }

  lemma {:induction false} RunAgrees(s: State, ops: seq<Op>)
    requires Agree(s)
    ensures Agree(Run(s, ops))
    decreases |ops|
  {
    if ops != [] {
      match ops[0] {
        case Resolve(hostname, port, tls, id) => ResolvedKeeps(s, hostname, port, tls, id);
        case Stop(entry, cachedEntries, reuse) => StoppedKeeps(s, entry, cachedEntries, reuse);
      }
      RunAgrees(Apply(s, ops[0]), ops[1..]);
    }
  }

  /** After any calls of `resolve` and `stopSocket` the two indexes hold the same entries. */
  lemma IndexesAgree(ops: seq<Op>, e: SocketEntry)
    ensures Agree(EMPTY)
    ensures var s := Run(EMPTY, ops);
            && Agree(s) && (Resident(s, e) <==> (e.timestamp, e) in s.fifo)
            && (Resident(s, e) ==> e.fd >= 0 && e.timestamp < s.timestamp)
  {
    RunAgrees(EMPTY, ops);
    SameEntries(Run(EMPTY, ops), e);
  }

  // ---------------------------------------------------------------------------------------------
  // The object
  // ---------------------------------------------------------------------------------------------

  class Cache {
    var cache: map<string, seq<SocketEntry>>
    var fifo: seq<Stamped>
    var timestamp: nat
    var closed: seq<int>

    ghost function Value(): State
      reads this
    {
      State(cache, fifo, timestamp, closed)
    }

    constructor ()
      ensures Value() == EMPTY
    {
      cache, fifo, timestamp, closed := map[], [], 0, [];
    }

    method Resolve(hostname: string, port: nat, tls: bool, id: nat) returns (e: SocketEntry)
      modifies this
      ensures (Value(), e) == Resolved(old(Value()), hostname, port, tls, id)
    {
      var key := KeyOf(hostname, port);
      var range := Range(cache, key);
      var i := 0;
      while i < |range|
        invariant 0 <= i <= |range| && FirstOpen(range) >= i && Value() == old(Value())
      {
        if range[i].fd >= 0 {
          fifo := Erased(fifo, range[i].timestamp);
          cache := cache[key := Without(range, i)];
          return range[i];
        }
        i := i + 1;
      }
      return SocketEntry(id, 0, -1, port, hostname);
    }

    method Shutdown(e: Option<SocketEntry>)
      modifies this`closed
      ensures Value() == Closed(old(Value()), e)
    {
      if e.Some? && e.value.fd >= 0 {
        closed := closed + [e.value.fd];
      }
    }

    method Evict()
      requires fifo != []
      modifies this`cache, this`fifo
      ensures Value() == Evicted(old(Value()))
    {
      var oldest := fifo[0].1;
      var key := KeyOf(oldest.hostname, oldest.port);
      var range := Range(cache, key);
      var i := 0;
      while i < |range| && range[i] != oldest
        invariant 0 <= i <= |range| && IndexOf(range, oldest) >= i
      {
        i := i + 1;
      }
      if i < |range| {
        cache := cache[key := Without(range, i)];
      }
      fifo := fifo[1..];
    }

    method StopSocket(e: Option<SocketEntry>, cachedEntries: nat, reuse: bool)
      modifies this
      ensures Value() == Stopped(old(Value()), e, cachedEntries, reuse)
    {
      if !reuse || e.None? || e.value.fd < 0 {
        Shutdown(e);
        return;
      }
      if cachedEntries >= EVICTION_LIMIT && fifo != [] {
        Evict();
      }
      var key := KeyOf(e.value.hostname, e.value.port);
      var stored := e.value.(timestamp := timestamp);
      fifo := Put(fifo, timestamp, stored);
      timestamp := timestamp + 1;
      cache := cache[key := Range(cache, key) + [stored]];
    }
  }
}
