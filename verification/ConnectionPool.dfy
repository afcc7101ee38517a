/** The pool of connections: src/network/connection_mannager.cpp, include/network/connection_manager.hpp.
    A connection has one owner at a time and is moved between owners, so it is a value with an identity. */
module ConnectionPool {
  import opened Options

  datatype ConnectionState = IDLE | IN_USE | CLOSED

  datatype Connection = Connection(id: nat, host: string, port: nat, tls: bool, state: ConnectionState, connected: bool, lastUsed: int)

  // ---------------------------------------------------------------------------------------------
  // Keys
  // ---------------------------------------------------------------------------------------------

  /** `std::to_string` of an unsigned number. */
  function Decimal(n: nat): (s: string)
    ensures s != "" && forall i :: 0 <= i < |s| ==> '0' <= s[i] <= '9'
  {
    (if n < 10 then "" else Decimal(n / 10)) + [('0' as int + n % 10) as char]
  }

  function Parsed(s: string): int {
    if s == "" then 0 else 10 * Parsed(s[..|s| - 1]) + (s[|s| - 1] as int - '0' as int)
  }

  lemma {:induction false} DecimalParsed(n: nat)
    ensures Parsed(Decimal(n)) == n
  {
    var s := Decimal(n);
    if n >= 10 {
      DecimalParsed(n / 10);
      assert s[..|s| - 1] == Decimal(n / 10);
    } else {
      assert s[..|s| - 1] == "";
    }
  }

  function MakeKey(host: string, port: nat, tls: bool): string {
    host + ":" + Decimal(port) + (if tls then ":tls" else "")
  }

  /** The last colon of a text that ends in a colon and digits separates the two. */
  lemma LastColon(host: string, digits: string, host': string, digits': string)
    requires host + ":" + digits == host' + ":" + digits'
    requires forall i :: 0 <= i < |digits| ==> '0' <= digits[i] <= '9'
    requires forall i :: 0 <= i < |digits'| ==> '0' <= digits'[i] <= '9'
    ensures host == host' && digits == digits'
  {
    var s := host + ":" + digits;
    NoColonBehind(host, digits);
    NoColonBehind(host', digits');
    assert s[..|host|] == host && s[..|host'|] == host';
    assert s[|host| + 1..] == digits && s[|host'| + 1..] == digits';
  }

  lemma NoColonBehind(host: string, digits: string)
    requires forall i :: 0 <= i < |digits| ==> '0' <= digits[i] <= '9'
    ensures var s := host + ":" + digits; s[|host|] == ':' && forall k :: |host| < k < |s| ==> s[k] != ':'
  {
    var s := host + ":" + digits;
    forall k | |host| < k < |s|
      ensures s[k] != ':'
    {
      assert s[k] == digits[k - |host| - 1];
    }
  }

  /** Two targets have the same key only when host, port and TLS flag are the same, colons in hosts included. */
  lemma KeyInjective(host: string, port: nat, tls: bool, host': string, port': nat, tls': bool)
    requires MakeKey(host, port, tls) == MakeKey(host', port', tls')
    ensures host == host' && port == port' && tls == tls'
  {
    var key := MakeKey(host, port, tls);
    var digits, digits' := Decimal(port), Decimal(port');
    assert tls ==> key[|key| - 1] == 's';
    assert tls' ==> key[|key| - 1] == 's';
    assert !tls ==> key[|key| - 1] == digits[|digits| - 1];
    assert !tls' ==> key[|key| - 1] == digits'[|digits'| - 1];
    var n := if tls then |key| - 4 else |key|;
    assert key[..n] == host + ":" + digits && key[..n] == host' + ":" + digits';
    LastColon(host, digits, host', digits');
    DecimalParsed(port);
    DecimalParsed(port');
  }

  // ---------------------------------------------------------------------------------------------
  // The operations, on values
  // ---------------------------------------------------------------------------------------------

  type Slot = Option<Connection>

  /** `out` are the identities of the connections that callers hold; `closed` counts the connections that the cleanup of
      idle connections has closed. */
  datatype Pool = Pool(slots: seq<Slot>, idle: map<string, Connection>, out: set<nat>, nextId: nat, closed: nat)

  function Key(c: Connection): string {
    MakeKey(c.host, c.port, c.tls)
  }

  predicate Matches(c: Connection, host: string, port: nat, tls: bool) {
    c.state == IDLE && c.host == host && c.port == port && c.tls == tls
  }

  function Used(c: Connection, now: int): Connection {
    c.(state := IN_USE, lastUsed := now)
  }

  /** The first slot with a matching connection, or the number of slots. */
  function FirstMatch(slots: seq<Slot>, host: string, port: nat, tls: bool): (i: nat)
    ensures i <= |slots|
    ensures i < |slots| ==> slots[i].Some? && Matches(slots[i].value, host, port, tls)
    ensures forall k :: 0 <= k < i ==> !(slots[k].Some? && Matches(slots[k].value, host, port, tls))
  {
    if slots == [] || (slots[0].Some? && Matches(slots[0].value, host, port, tls)) then 0
    else
      assert forall k :: 1 <= k < |slots| ==> slots[k] == slots[1..][k - 1];
      1 + FirstMatch(slots[1..], host, port, tls)
  }

  function FirstEmpty(slots: seq<Slot>): (i: nat)
    ensures i <= |slots| && (i < |slots| ==> slots[i].None?)
    ensures forall k :: 0 <= k < i ==> slots[k].Some?
  {
    if slots == [] || slots[0].None? then 0
    else
      assert forall k :: 1 <= k < |slots| ==> slots[k] == slots[1..][k - 1];
      1 + FirstEmpty(slots[1..])
  }

  function WithoutClosed(slots: seq<Slot>): seq<Slot> {
    if slots == [] then []
    else if slots[0].Some? && slots[0].value.state == CLOSED then WithoutClosed(slots[1..])
    else [slots[0]] + WithoutClosed(slots[1..])
  }

  function Opened(p: Pool, host: string, port: nat, tls: bool, reachable: bool, now: int): (Pool, Option<Connection>) {
    if reachable then
      var c := Connection(p.nextId, host, port, tls, IN_USE, true, now);
      (p.(slots := p.slots + [None], out := p.out + {c.id}, nextId := p.nextId + 1), Some(c))
    else (p, None)
  }

  /** `getConnection` before `closeAll`; `reachable` says whether a new connection could be made. */
  function Got(p: Pool, max: nat, host: string, port: nat, tls: bool, reachable: bool, now: int): (Pool, Option<Connection>) {
    var key := MakeKey(host, port, tls);
    if key in p.idle then
      var c := Used(p.idle[key], now);
      (p.(idle := p.idle - {key}, out := p.out + {c.id}), Some(c))
    else
      var i := FirstMatch(p.slots, host, port, tls);
      if i < |p.slots| then
        var c := Used(p.slots[i].value, now);
        (p.(slots := p.slots[i := None], out := p.out + {c.id}), Some(c))
      else if |p.slots| < max then Opened(p, host, port, tls, reachable, now)
      else
        var swept := p.(slots := WithoutClosed(p.slots));
        if |swept.slots| < max then Opened(swept, host, port, tls, reachable, now) else (swept, None)
  }

  /** `returnConnection`. When a connection with the same key rests in the map and no slot is empty, that one is dropped. */
  function Returned(p: Pool, c: Connection): Pool {
    var q := p.(out := p.out - {c.id});
    var i := FirstEmpty(p.slots);
    if c.state == CLOSED || !c.connected then
      if i < |p.slots| then q.(slots := p.slots[..i] + p.slots[i + 1..]) else q
    else
      var placed := if Key(c) in p.idle && i < |p.slots| then p.slots[i := Some(p.idle[Key(c)])] else p.slots;
      q.(slots := placed, idle := p.idle[Key(c) := c.(state := IDLE)])
  }

  predicate IdleTooLong(c: Connection, maxIdle: int, now: int) {
    c.state == IDLE && now - c.lastUsed > maxIdle
  }

  function Cleaned(slots: seq<Slot>, maxIdle: int, now: int): seq<Slot> {
    if slots == [] then []
    else [if slots[0].Some? && IdleTooLong(slots[0].value, maxIdle, now) then None else slots[0]] + Cleaned(slots[1..], maxIdle, now)
  }

  function Kept(idle: map<string, Connection>, maxIdle: int, now: int): map<string, Connection> {
    map k | k in idle && !IdleTooLong(idle[k], maxIdle, now) :: idle[k]
  }

  function Nulls(slots: seq<Slot>): nat {
    if slots == [] then 0 else (if slots[0].None? then 1 else 0) + Nulls(slots[1..])
  }

  function Expired(slots: seq<Slot>, maxIdle: int, now: int): nat {
    if slots == [] then 0
    else (if slots[0].Some? && IdleTooLong(slots[0].value, maxIdle, now) then 1 else 0) + Expired(slots[1..], maxIdle, now)
  }

  /** `closeIdleConnections`. */
  function CleanedUp(p: Pool, maxIdle: int, now: int): Pool {
    var idle := Kept(p.idle, maxIdle, now);
    p.(idle := idle, slots := Cleaned(p.slots, maxIdle, now),
       closed := p.closed + Expired(p.slots, maxIdle, now) + |p.idle.Keys - idle.Keys|)
  }

  // ---------------------------------------------------------------------------------------------
  // Accounting
  // ---------------------------------------------------------------------------------------------

  function SlotCount(slots: seq<Slot>, id: nat): nat {
    if slots == [] then 0 else (if slots[0].Some? && slots[0].value.id == id then 1 else 0) + SlotCount(slots[1..], id)
  }

  function IdleAt(idle: map<string, Connection>, id: nat): set<string> {
    set k | k in idle && idle[k].id == id
  }

  function IdleCount(idle: map<string, Connection>, id: nat): nat {
    |IdleAt(idle, id)|
  }

  /** In how many places a connection is. */
  function Places(p: Pool, id: nat): nat {
    SlotCount(p.slots, id) + IdleCount(p.idle, id) + (if id in p.out then 1 else 0)
  }

  /** The connections that exist: resting in slots or in the map, or held by callers. */
  function Live(p: Pool): int {
    |p.slots| - Nulls(p.slots) + |p.idle| + |p.out|
  }

  predicate Rests(c: Connection) {
    c.state == IDLE && c.connected
  }

  ghost predicate SlotsRest(slots: seq<Slot>) {
    forall i :: 0 <= i < |slots| && slots[i].Some? ==> Rests(slots[i].value)
  }

  ghost predicate IdleRests(idle: map<string, Connection>) {
    forall k :: k in idle ==> Rests(idle[k]) && Key(idle[k]) == k
  }

  ghost predicate OnePlace(p: Pool) {
    forall id: nat {:trigger Places(p, id)} :: Places(p, id) <= 1 && (Places(p, id) == 1 ==> id < p.nextId)
  }

  ghost predicate Inv(p: Pool, max: nat) {
    && |p.slots| <= max
    && Nulls(p.slots) == |p.out| + |p.idle| + p.closed
    && SlotsRest(p.slots) && IdleRests(p.idle) && OnePlace(p)
  }

  lemma {:induction false} SlotUpdate(slots: seq<Slot>, i: nat, slot: Slot, id: nat)
    requires i < |slots|
    ensures Nulls(slots[i := slot]) == Nulls(slots) - (if slots[i].None? then 1 else 0) + (if slot.None? then 1 else 0)
    ensures SlotCount(slots[i := slot], id) == SlotCount(slots, id)
              - (if slots[i].Some? && slots[i].value.id == id then 1 else 0) + (if slot.Some? && slot.value.id == id then 1 else 0)
  {
    if i > 0 {
      SlotUpdate(slots[1..], i - 1, slot, id);
      assert slots[i := slot][1..] == slots[1..][i - 1 := slot];
    } else {
      assert slots[0 := slot][1..] == slots[1..];
    }
  }

  lemma {:induction false} SlotRemoved(slots: seq<Slot>, i: nat, id: nat)
    requires i < |slots| && slots[i].None?
    ensures Nulls(slots[..i] + slots[i + 1..]) == Nulls(slots) - 1
    ensures SlotCount(slots[..i] + slots[i + 1..], id) == SlotCount(slots, id)
  {
    if i == 0 {
      assert slots[..0] + slots[1..] == slots[1..];
    } else {
      SlotRemoved(slots[1..], i - 1, id);
      assert (slots[..i] + slots[i + 1..])[1..] == slots[1..][..i - 1] + slots[1..][i..];
    }
  }

  lemma {:induction false} SlotAdded(slots: seq<Slot>, id: nat)
    ensures Nulls(slots + [None]) == Nulls(slots) + 1 && SlotCount(slots + [None], id) == SlotCount(slots, id)
  {
    if slots != [] {
      SlotAdded(slots[1..], id);
      assert (slots + [None])[1..] == slots[1..] + [None];
    }
  }

  lemma {:induction false} NullFound(slots: seq<Slot>)
    ensures Nulls(slots) <= |slots| && (Nulls(slots) > 0 <==> FirstEmpty(slots) < |slots|)
  {
    if slots != [] { NullFound(slots[1..]); }
  }

  /** A connection that rests in a slot is counted there. */
  lemma {:induction false} SlotCounted(slots: seq<Slot>, i: nat)
    requires i < |slots| && slots[i].Some?
    ensures SlotCount(slots, slots[i].value.id) >= 1
  {
    if i > 0 { SlotCounted(slots[1..], i - 1); }
  }

  lemma IdleRemoved(idle: map<string, Connection>, key: string, id: nat)
    requires key in idle
    ensures |idle - {key}| == |idle| - 1
    ensures IdleCount(idle - {key}, id) == IdleCount(idle, id) - (if idle[key].id == id then 1 else 0)
  {
    var less := idle - {key};
    assert less.Keys == idle.Keys - {key};
    assert IdleAt(idle, id) == if idle[key].id == id then IdleAt(less, id) + {key} else IdleAt(less, id);
    assert key !in IdleAt(less, id);
  }

  lemma IdleAtPut(idle: map<string, Connection>, key: string, c: Connection, id: nat)
    requires key !in idle
    ensures key !in IdleAt(idle, id)
    ensures IdleAt(idle[key := c], id) == IdleAt(idle, id) + (if c.id == id then {key} else {})
  {
  }

  lemma IdlePutNew(idle: map<string, Connection>, key: string, c: Connection, id: nat)
    requires key !in idle
    ensures |idle[key := c]| == |idle| + 1
    ensures IdleCount(idle[key := c], id) == IdleCount(idle, id) + (if c.id == id then 1 else 0)
  {
    var more := idle[key := c];
    assert more.Keys == idle.Keys + {key};
    IdleAtPut(idle, key, c, id);
  }

  lemma IdlePut(idle: map<string, Connection>, key: string, c: Connection, id: nat)
    ensures |idle[key := c]| == |idle| + (if key in idle then 0 else 1)
    ensures IdleCount(idle[key := c], id) ==
            IdleCount(idle, id) - (if key in idle && idle[key].id == id then 1 else 0) + (if c.id == id then 1 else 0)
  {
    if key in idle {
      IdleRemoved(idle, key, id);
      IdlePutNew(idle - {key}, key, c, id);
      assert (idle - {key})[key := c] == idle[key := c];
    } else {
      IdlePutNew(idle, key, c, id);
    }
  }

  // ---------------------------------------------------------------------------------------------
  // getConnection
  // ---------------------------------------------------------------------------------------------

  /** A connection that rests somewhere and leads where the caller wants to go. */
  ghost predicate Available(p: Pool, host: string, port: nat, tls: bool) {
    || (exists k :: k in p.idle && Matches(p.idle[k], host, port, tls))
    || (exists i :: 0 <= i < |p.slots| && p.slots[i].Some? && Matches(p.slots[i].value, host, port, tls))
  }

  /** The lookup in the map and the scan of the slots together find a matching connection whenever there is one. */
  lemma LookupExact(p: Pool, max: nat, host: string, port: nat, tls: bool)
    requires Inv(p, max)
    ensures Available(p, host, port, tls) <==>
            MakeKey(host, port, tls) in p.idle || FirstMatch(p.slots, host, port, tls) < |p.slots|
    ensures MakeKey(host, port, tls) in p.idle ==> Matches(p.idle[MakeKey(host, port, tls)], host, port, tls)
  {
    var key := MakeKey(host, port, tls);
    if key in p.idle {
      var c := p.idle[key];
      KeyInjective(c.host, c.port, c.tls, host, port, tls);
    }
    if k :| k in p.idle && Matches(p.idle[k], host, port, tls) {
      assert k == key;
    }
  }

  /** The sweep over closed connections finds none: what rests in a slot is connected. */
  lemma {:induction false} SweepIsDead(slots: seq<Slot>)
    requires SlotsRest(slots)
    ensures WithoutClosed(slots) == slots
  {
    if slots != [] {
      assert SlotsRest(slots[1..]) by {
        assert forall i :: 0 <= i < |slots[1..]| ==> slots[1..][i] == slots[i + 1];
      }
      SweepIsDead(slots[1..]);
    }
  }

  lemma SamePlaces(p: Pool, q: Pool)
    requires OnePlace(p) && p.nextId <= q.nextId && forall x: nat :: Places(q, x) <= Places(p, x)
    ensures OnePlace(q)
  {
    forall x: nat
      ensures Places(q, x) <= 1 && (Places(q, x) == 1 ==> x < q.nextId)
    {
      assert Places(p, x) <= 1;
    }
  }

  lemma TakenFromMap(p: Pool, max: nat, key: string)
    requires Inv(p, max) && key in p.idle
    ensures var q := p.(idle := p.idle - {key}, out := p.out + {p.idle[key].id});
            Inv(q, max) && Live(q) == Live(p)
  {
    var id := p.idle[key].id;
    var q := p.(idle := p.idle - {key}, out := p.out + {id});
    assert Places(p, id) <= 1;
    IdleRemoved(p.idle, key, id);
    forall x: nat
      ensures Places(q, x) == Places(p, x)
    {
      IdleRemoved(p.idle, key, x);
    }
    SamePlaces(p, q);
  }

  lemma TakenFromSlot(p: Pool, max: nat, i: nat)
    requires Inv(p, max) && i < |p.slots| && p.slots[i].Some?
    ensures var q := p.(slots := p.slots[i := None], out := p.out + {p.slots[i].value.id});
            Inv(q, max) && Live(q) == Live(p)
  {
    var id := p.slots[i].value.id;
    var q := p.(slots := p.slots[i := None], out := p.out + {id});
    assert Places(p, id) <= 1;
    SlotCounted(p.slots, i);
    SlotUpdate(p.slots, i, None, id);
    forall x: nat
      ensures Places(q, x) == Places(p, x)
    {
      SlotUpdate(p.slots, i, None, x);
    }
    SamePlaces(p, q);
  }

  lemma OpenedKeeps(p: Pool, max: nat, host: string, port: nat, tls: bool, reachable: bool, now: int)
    requires Inv(p, max) && |p.slots| < max
    ensures var (q, r) := Opened(p, host, port, tls, reachable, now);
            Inv(q, max) && Live(q) == Live(p) + (if reachable then 1 else 0)
  {
    if reachable {
      var (q, r) := Opened(p, host, port, tls, reachable, now);
      var id := p.nextId;
      assert Places(p, id) <= 1;
      SlotAdded(p.slots, id);
      forall x: nat
        ensures Places(q, x) == Places(p, x) + (if x == id then 1 else 0)
      {
        SlotAdded(p.slots, x);
      }
      forall x: nat
        ensures Places(q, x) <= 1 && (Places(q, x) == 1 ==> x < q.nextId)
      {
        assert Places(p, x) <= 1;
      }
    }
  }

  /** No caller holds a connection that rests in the map or in a slot. */
  lemma RestingIsFree(p: Pool, max: nat, id: nat)
    requires Inv(p, max)
    requires (exists k :: k in p.idle && p.idle[k].id == id)
          || (exists i :: 0 <= i < |p.slots| && p.slots[i].Some? && p.slots[i].value.id == id)
    ensures id !in p.out && id < p.nextId
  {
    assert Places(p, id) <= 1;
    if k :| k in p.idle && p.idle[k].id == id {
      IdleRemoved(p.idle, k, id);
    }
    if i :| 0 <= i < |p.slots| && p.slots[i].Some? && p.slots[i].value.id == id {
      SlotCounted(p.slots, i);
    }
  }

  /** What `getConnection` gives. A connection always leads where the caller wants to go; it is an old one exactly when one
      rests in the map or in a slot; and there is none only when all slots are taken or no connection could be made. */
  lemma GotKeeps(p: Pool, max: nat, host: string, port: nat, tls: bool, reachable: bool, now: int)
    requires Inv(p, max)
    ensures var (q, r) := Got(p, max, host, port, tls, reachable, now);
            && Inv(q, max)
            && (r.Some? ==> r.value.host == host && r.value.port == port && r.value.tls == tls && r.value.connected
                            && r.value.state == IN_USE && r.value.id in q.out && r.value.id !in p.out)
            && (r.Some? && r.value.id < p.nextId <==> Available(p, host, port, tls))
            && (r.None? <==> !Available(p, host, port, tls) && (|p.slots| >= max || !reachable))
            && (r.None? ==> q == p)
            && Live(q) == Live(p) + (if r.Some? && !Available(p, host, port, tls) then 1 else 0)
  {
    LookupExact(p, max, host, port, tls);
    var key, i := MakeKey(host, port, tls), FirstMatch(p.slots, host, port, tls);
    if key in p.idle {
      TakenFromMap(p, max, key);
      RestingIsFree(p, max, p.idle[key].id);
    } else if i < |p.slots| {
      TakenFromSlot(p, max, i);
      RestingIsFree(p, max, p.slots[i].value.id);
    } else {
      SweepIsDead(p.slots);
      assert Places(p, p.nextId) <= 1;
      if |p.slots| < max { OpenedKeeps(p, max, host, port, tls, reachable, now); }
    }
  }

  // ---------------------------------------------------------------------------------------------
  // returnConnection
  // ---------------------------------------------------------------------------------------------

  /** Whenever a caller returns a connection there is an empty slot: the branch that drops a connection for want of one
      is never taken, and a broken connection always frees a slot. */
  lemma EmptySlotExists(p: Pool, max: nat, c: Connection)
    requires Inv(p, max) && c.id in p.out
    ensures FirstEmpty(p.slots) < |p.slots|
  {
    assert |p.out| > 0 by { assert p.out != {}; }
    NullFound(p.slots);
  }

  lemma ReturnedBroken(p: Pool, max: nat, c: Connection)
    requires Inv(p, max) && c.id in p.out && (c.state == CLOSED || !c.connected)
    ensures Inv(Returned(p, c), max) && Live(Returned(p, c)) == Live(p) - 1 && Places(Returned(p, c), c.id) == 0
  {
    EmptySlotExists(p, max, c);
    var i, q := FirstEmpty(p.slots), Returned(p, c);
    SlotRemoved(p.slots, i, c.id);
    forall x: nat
      ensures Places(q, x) == Places(p, x) - (if x == c.id then 1 else 0)
    {
      PlacesGone(p, c, i, x);
    }
    assert Places(p, c.id) <= 1;
    SamePlaces(p, q);
  }

  lemma PlacesGone(p: Pool, c: Connection, i: nat, x: nat)
    requires c.id in p.out && (c.state == CLOSED || !c.connected) && i == FirstEmpty(p.slots) < |p.slots|
    ensures Places(Returned(p, c), x) == Places(p, x) - (if x == c.id then 1 else 0)
  {
    SlotRemoved(p.slots, i, x);
  }

  lemma ReturnedGood(p: Pool, max: nat, c: Connection)
    requires Inv(p, max) && c.id in p.out && c.state != CLOSED && c.connected
    ensures var q := Returned(p, c);
            && Inv(q, max) && Live(q) == Live(p)
            && Key(c) in q.idle && q.idle[Key(c)] == c.(state := IDLE)
            && (Key(c) in p.idle ==> exists i :: 0 <= i < |q.slots| && q.slots[i] == Some(p.idle[Key(c)]))
  {
    if Key(c) in p.idle {
      ReturnedOver(p, max, c);
    } else {
      ReturnedAnew(p, max, c);
    }
  }

  /** No connection with the same key rests in the map. */
  lemma ReturnedAnew(p: Pool, max: nat, c: Connection)
    requires Inv(p, max) && c.id in p.out && c.state != CLOSED && c.connected && Key(c) !in p.idle
    ensures Inv(Returned(p, c), max) && Live(Returned(p, c)) == Live(p)
  {
    var q, put := Returned(p, c), c.(state := IDLE);
    assert q.slots == p.slots && q.idle == p.idle[Key(c) := put];
    IdlePutNew(p.idle, Key(c), put, c.id);
    forall x: nat
      ensures Places(q, x) == Places(p, x)
    {
      IdlePutNew(p.idle, Key(c), put, x);
    }
    SamePlaces(p, q);
  }

  /** One does, and moves to an empty slot. */
  lemma ReturnedOver(p: Pool, max: nat, c: Connection)
    requires Inv(p, max) && c.id in p.out && c.state != CLOSED && c.connected && Key(c) in p.idle
    ensures Inv(Returned(p, c), max) && Live(Returned(p, c)) == Live(p)
    ensures exists i :: 0 <= i < |p.slots| == |Returned(p, c).slots| && Returned(p, c).slots[i] == Some(p.idle[Key(c)])
  {
    EmptySlotExists(p, max, c);
    var i, q, put := FirstEmpty(p.slots), Returned(p, c), c.(state := IDLE);
    var resting := Some(p.idle[Key(c)]);
    assert q.slots == p.slots[i := resting] && q.idle == p.idle[Key(c) := put] && q.slots[i] == resting;
    IdlePut(p.idle, Key(c), put, c.id);
    SlotUpdate(p.slots, i, resting, c.id);
    forall x: nat
      ensures Places(q, x) == Places(p, x)
    {
      PlacesOver(p, c, i, x);
    }
    SamePlaces(p, q);
  }

  lemma PlacesOver(p: Pool, c: Connection, i: nat, x: nat)
    requires c.id in p.out && c.state != CLOSED && c.connected && Key(c) in p.idle && i == FirstEmpty(p.slots) < |p.slots|
    ensures Places(Returned(p, c), x) == Places(p, x)
  {
    IdlePut(p.idle, Key(c), c.(state := IDLE), x);
    SlotUpdate(p.slots, i, Some(p.idle[Key(c)]), x);
  }

  // ---------------------------------------------------------------------------------------------
  // closeIdleConnections
  // ---------------------------------------------------------------------------------------------

  lemma {:induction false} CleanedSlots(slots: seq<Slot>, maxIdle: int, now: int, id: nat)
    ensures |Cleaned(slots, maxIdle, now)| == |slots|
    ensures Nulls(Cleaned(slots, maxIdle, now)) == Nulls(slots) + Expired(slots, maxIdle, now)
    ensures SlotCount(Cleaned(slots, maxIdle, now), id) <= SlotCount(slots, id)
    ensures forall i :: 0 <= i < |slots| ==>
              Cleaned(slots, maxIdle, now)[i] == if slots[i].Some? && IdleTooLong(slots[i].value, maxIdle, now) then None else slots[i]
  {
    if slots != [] { CleanedSlots(slots[1..], maxIdle, now, id); }
  }

  lemma KeptCount(idle: map<string, Connection>, maxIdle: int, now: int, id: nat)
    ensures var kept := Kept(idle, maxIdle, now);
            |kept| + |idle.Keys - kept.Keys| == |idle| && IdleCount(kept, id) <= IdleCount(idle, id)
  {
    var kept := Kept(idle, maxIdle, now);
    assert idle.Keys == kept.Keys + (idle.Keys - kept.Keys);
    assert IdleAt(idle, id) == IdleAt(kept, id) + (IdleAt(idle, id) - IdleAt(kept, id));
  }

  /** The cleanup removes exactly the connections that have been idle too long, but the slots that stood for those of the
      map stay empty: all that it closes is lost to the capacity. */
  lemma CleanedUpKeeps(p: Pool, max: nat, maxIdle: int, now: int)
    requires Inv(p, max)
    ensures var q := CleanedUp(p, maxIdle, now);
            && Inv(q, max) && q.out == p.out && |q.slots| == |p.slots| && q.closed >= p.closed
            && Live(q) == Live(p) - (q.closed - p.closed)
            && (forall k :: k in q.idle <==> k in p.idle && !(p.idle[k].state == IDLE && now - p.idle[k].lastUsed > maxIdle))
            && (forall i :: 0 <= i < |q.slots| ==>
                  (q.slots[i] == if p.slots[i].Some? && p.slots[i].value.state == IDLE && now - p.slots[i].value.lastUsed > maxIdle
                                 then None else p.slots[i]))
  {
    var q := CleanedUp(p, maxIdle, now);
    CleanedSlots(p.slots, maxIdle, now, 0);
    KeptCount(p.idle, maxIdle, now, 0);
    forall x: nat
      ensures Places(q, x) <= Places(p, x)
    {
      PlacesCleaned(p, maxIdle, now, x);
    }
    SamePlaces(p, q);
  }

  lemma PlacesCleaned(p: Pool, maxIdle: int, now: int, x: nat)
    ensures Places(CleanedUp(p, maxIdle, now), x) <= Places(p, x)
  {
    CleanedSlots(p.slots, maxIdle, now, x);
    KeptCount(p.idle, maxIdle, now, x);
  }

  // ---------------------------------------------------------------------------------------------
  // Runs
  // ---------------------------------------------------------------------------------------------

  /** Callers return only what they hold, in whatever state it is by then. */
  datatype Op =
    | Get(host: string, port: nat, tls: bool, reachable: bool, now: int)
    | Return(connection: Connection)
    | CloseIdle(maxIdle: int, now: int)

  function Apply(p: Pool, max: nat, op: Op): Pool {
    match op
    case Get(host, port, tls, reachable, now) => Got(p, max, host, port, tls, reachable, now).0
    case Return(c) => if c.id in p.out then Returned(p, c) else p
    case CloseIdle(maxIdle, now) => CleanedUp(p, maxIdle, now)
  }

  function Run(p: Pool, max: nat, ops: seq<Op>): Pool
    decreases |ops|
  {
    if ops == [] then p else Run(Apply(p, max, ops[0]), max, ops[1..])
  }

  const EMPTY := Pool([], map[], {}, 0, 0)

  lemma ApplyKeeps(p: Pool, max: nat, op: Op)
    requires Inv(p, max)
    ensures Inv(Apply(p, max, op), max) && Apply(p, max, op).closed >= p.closed
  {
    match op
    case Get(host, port, tls, reachable, now) => GetKeeps(p, max, host, port, tls, reachable, now);
    case Return(c) => if c.id in p.out { ReturnKeeps(p, max, c); }
    case CloseIdle(maxIdle, now) => CleanedUpKeeps(p, max, maxIdle, now);
  }

  lemma GetKeeps(p: Pool, max: nat, host: string, port: nat, tls: bool, reachable: bool, now: int)
    requires Inv(p, max)
    ensures var q := Got(p, max, host, port, tls, reachable, now).0; Inv(q, max) && q.closed >= p.closed
  {
    GotKeeps(p, max, host, port, tls, reachable, now);
  }

  lemma ReturnKeeps(p: Pool, max: nat, c: Connection)
    requires Inv(p, max) && c.id in p.out
    ensures Inv(Returned(p, c), max) && Returned(p, c).closed >= p.closed
  {
    if c.state == CLOSED || !c.connected { ReturnedBroken(p, max, c); } else { ReturnedGood(p, max, c); }
  }

  lemma {:induction false} RunKeeps(p: Pool, max: nat, ops: seq<Op>)
    requires Inv(p, max)
    ensures Inv(Run(p, max, ops), max) && Run(p, max, ops).closed >= p.closed
    decreases |ops|
  {
    if ops != [] {
      ApplyKeeps(p, max, ops[0]);
      RunKeeps(Apply(p, max, ops[0]), max, ops[1..]);
    }
  }

  lemma EmptyIsInv(max: nat)
    ensures Inv(EMPTY, max)
  {
    assert forall id: nat :: IdleAt(map[], id) == {};
  }

  /** After any operations: no connection is in two places, the empty slots stand for the connections held, those in the map,
      and those the cleanup closed, and there are never more connections than slots, nor more slots than allowed. */
  lemma Accounting(max: nat, ops: seq<Op>, id: nat)
    ensures var p := Run(EMPTY, max, ops);
            && Places(p, id) <= 1
            && Nulls(p.slots) == |p.out| + |p.idle| + p.closed
            && Live(p) + p.closed == |p.slots| <= max
  {
    EmptyIsInv(max);
    RunKeeps(EMPTY, max, ops);
    assert Places(Run(EMPTY, max, ops), id) <= 1;
  }

  /** A new connection is refused although it could be made exactly when the connections that exist and those that the
      cleanup has closed together fill the pool. */
  lemma RefusedExactly(max: nat, ops: seq<Op>, host: string, port: nat, tls: bool, now: int)
    ensures var p := Run(EMPTY, max, ops);
            Got(p, max, host, port, tls, true, now).1.None? <==>
              !Available(p, host, port, tls) && Live(p) + p.closed >= max
  {
    EmptyIsInv(max);
    RunKeeps(EMPTY, max, ops);
    GotKeeps(Run(EMPTY, max, ops), max, host, port, tls, true, now);
  }

  /** Once the cleanup has closed as many connections as the pool may hold, the pool never gives a connection again. */
  lemma CapacityLost(max: nat, ops: seq<Op>, more: seq<Op>, host: string, port: nat, tls: bool, now: int)
    requires Run(EMPTY, max, ops).closed >= max
    ensures Got(Run(Run(EMPTY, max, ops), max, more), max, host, port, tls, true, now).1.None?
  {
    var p := Run(EMPTY, max, ops);
    EmptyIsInv(max);
    RunKeeps(EMPTY, max, ops);
    RunKeeps(p, max, more);
    NothingIsGiven(Run(p, max, more), max, host, port, tls, now);
  }

  lemma NothingIsGiven(p: Pool, max: nat, host: string, port: nat, tls: bool, now: int)
    requires Inv(p, max) && p.closed >= max
    ensures Got(p, max, host, port, tls, true, now).1.None?
  {
    NullsAtMost(p.slots);
    NothingRests(p, max, host, port, tls);
    GotKeeps(p, max, host, port, tls, true, now);
  }

  lemma NothingRests(p: Pool, max: nat, host: string, port: nat, tls: bool)
    requires Inv(p, max) && p.closed >= max
    ensures !Available(p, host, port, tls)
  {
    NullsAtMost(p.slots);
    assert p.idle == map[];
    AllNulls(p.slots);
  }

  lemma {:induction false} NullsAtMost(slots: seq<Slot>)
    ensures Nulls(slots) <= |slots|
  {
    if slots != [] { NullsAtMost(slots[1..]); }
  }

  lemma {:induction false} AllNulls(slots: seq<Slot>)
    requires Nulls(slots) >= |slots|
    ensures forall i :: 0 <= i < |slots| ==> slots[i].None?
  {
    if slots != [] {
      NullsAtMost(slots[1..]);
      AllNulls(slots[1..]);
      assert forall i :: 1 <= i < |slots| ==> slots[i] == slots[1..][i - 1];
    }
  }

  /** The shortest such run: one connection is made, returned, and closed by the cleanup; a pool of one gives none after that. */
  lemma OneCleanupIsEnough(host: string, port: nat, tls: bool)
    ensures var c := Connection(0, host, port, tls, IN_USE, true, 0);
            Run(EMPTY, 1, [Get(host, port, tls, true, 0), Return(c), CloseIdle(300, 301)]).closed == 1
  {
    var c := Connection(0, host, port, tls, IN_USE, true, 0);
    var p1, p2 := Pool([None], map[], {0}, 1, 0), Pool([None], map[Key(c) := c.(state := IDLE)], {}, 1, 0);
    GotAlone(host, port, tls);
    ReturnedAlone(c);
    CleanedAlone(c);
    RunOfThree(EMPTY, 1, Get(host, port, tls, true, 0), Return(c), CloseIdle(300, 301));
  }

  lemma GotAlone(host: string, port: nat, tls: bool)
    ensures Got(EMPTY, 1, host, port, tls, true, 0).0 == Pool([None], map[], {0}, 1, 0)
  {
    assert EMPTY.slots + [None] == [None];
  }

  lemma RunOfThree(p: Pool, max: nat, a: Op, b: Op, c: Op)
    ensures Run(p, max, [a, b, c]) == Apply(Apply(Apply(p, max, a), max, b), max, c)
  {
    var p1, p2 := Apply(p, max, a), Apply(Apply(p, max, a), max, b);
    RunFirst(p, max, a, [b, c]);
    RunFirst(p1, max, b, [c]);
    RunFirst(p2, max, c, []);
    assert [a] + [b, c] == [a, b, c] && [b] + [c] == [b, c] && [c] + [] == [c];
  }

  lemma RunFirst(p: Pool, max: nat, a: Op, rest: seq<Op>)
    ensures Run(p, max, [a] + rest) == Run(Apply(p, max, a), max, rest)
  {
    assert ([a] + rest)[1..] == rest;
  }

  lemma CleanedAlone(c: Connection)
    requires c.lastUsed == 0
    ensures CleanedUp(Pool([None], map[Key(c) := c.(state := IDLE)], {}, 1, 0), 300, 301).closed == 1
  {
    var idle := map[Key(c) := c.(state := IDLE)];
    assert idle.Keys - Kept(idle, 300, 301).Keys == {Key(c)};
    assert Expired([None], 300, 301) == 0;
  }

  lemma ReturnedAlone(c: Connection)
    requires c.id == 0 && c.state == IN_USE && c.connected
    ensures Returned(Pool([None], map[], {0}, 1, 0), c) == Pool([None], map[Key(c) := c.(state := IDLE)], {}, 1, 0)
  {
    assert {0} - {c.id} == {};
  }
}
