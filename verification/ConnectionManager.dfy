/** The pool as an object that moves connections between slots, map and callers in place:
    src/network/connection_mannager.cpp. */
module ConnectionManagers {
  import opened Options
  import opened ConnectionPool

  /** The map during the cleanup: the connections of `keys` have not been looked at. */
  function KeptBut(idle: map<string, Connection>, keys: set<string>, maxIdle: int, now: int): map<string, Connection> {
    map k | k in idle && (k in keys || !IdleTooLong(idle[k], maxIdle, now)) :: idle[k]
  }

  lemma KeptButOne(idle: map<string, Connection>, keys: set<string>, k: string, maxIdle: int, now: int)
    requires keys <= idle.Keys && k in keys
    ensures var before, after := KeptBut(idle, keys, maxIdle, now), KeptBut(idle, keys - {k}, maxIdle, now);
            && k in before && before[k] == idle[k]
            && after == (if IdleTooLong(idle[k], maxIdle, now) then before - {k} else before)
            && |idle.Keys - after.Keys| == |idle.Keys - before.Keys| + (if IdleTooLong(idle[k], maxIdle, now) then 1 else 0)
  {
    var before, after := KeptBut(idle, keys, maxIdle, now), KeptBut(idle, keys - {k}, maxIdle, now);
    if IdleTooLong(idle[k], maxIdle, now) {
      assert after == before - {k};
      assert idle.Keys - after.Keys == (idle.Keys - before.Keys) + {k};
    } else {
      assert after == before;
    }
  }

  lemma AllKept(idle: map<string, Connection>, maxIdle: int, now: int)
    ensures KeptBut(idle, idle.Keys, maxIdle, now) == idle
    ensures KeptBut(idle, {}, maxIdle, now) == Kept(idle, maxIdle, now)
  {
  }

  /** The loop of the cleanup over the map; `n` connections are closed. */
  method CloseIdleInMap(idle: map<string, Connection>, maxIdle: int, now: int) returns (kept: map<string, Connection>, n: nat)
    ensures kept == Kept(idle, maxIdle, now) && n == |idle.Keys - kept.Keys|
  {
    var keys := idle.Keys;
    kept, n := idle, 0;
    AllKept(idle, maxIdle, now);
    while keys != {}
      invariant keys <= idle.Keys && kept == KeptBut(idle, keys, maxIdle, now) && n == |idle.Keys - kept.Keys|
      decreases |keys|
    {
      var k :| k in keys;
      KeptButOne(idle, keys, k, maxIdle, now);
      if IdleTooLong(kept[k], maxIdle, now) {
        kept, n := kept - {k}, n + 1;
      }
      keys := keys - {k};
    }
  }

  lemma CleanedNext(slots: seq<Slot>, i: nat, maxIdle: int, now: int)
    requires i < |slots|
    ensures var gone := slots[i].Some? && IdleTooLong(slots[i].value, maxIdle, now);
            && Cleaned(slots[i..], maxIdle, now) == [if gone then None else slots[i]] + Cleaned(slots[i + 1..], maxIdle, now)
            && Expired(slots[i..], maxIdle, now) == (if gone then 1 else 0) + Expired(slots[i + 1..], maxIdle, now)
  {
    assert slots[i..][1..] == slots[i + 1..];
  }

  /** The first `i` slots have been cleaned. */
  ghost predicate CleanedUpTo(before: seq<Slot>, slots: seq<Slot>, i: nat, maxIdle: int, now: int) {
    i <= |slots| == |before| && slots[i..] == before[i..]
    && Cleaned(before, maxIdle, now) == slots[..i] + Cleaned(slots[i..], maxIdle, now)
  }

  lemma CleanedMore(before: seq<Slot>, slots: seq<Slot>, i: nat, maxIdle: int, now: int)
    requires CleanedUpTo(before, slots, i, maxIdle, now) && i < |slots|
    ensures slots[i].Some? && IdleTooLong(slots[i].value, maxIdle, now) ==>
              CleanedUpTo(before, slots[i := None], i + 1, maxIdle, now)
    ensures !(slots[i].Some? && IdleTooLong(slots[i].value, maxIdle, now)) ==>
              CleanedUpTo(before, slots, i + 1, maxIdle, now)
  {
    CleanedNext(slots, i, maxIdle, now);
    var gone := slots[i].Some? && IdleTooLong(slots[i].value, maxIdle, now);
    var next := if gone then slots[i := None] else slots;
    assert next[..i + 1] == slots[..i] + [next[i]] && next[i + 1..] == slots[i + 1..] == before[i + 1..];
  }

  class ConnectionManager {
    const maxConnections: nat
    const maxIdleSeconds: int
    var slots: seq<Slot>
    var idle: map<string, Connection>
    var stop: bool
    var nextId: nat
    var out: set<nat>
    var closed: nat

    ghost function Value(): Pool
      reads this
    {
      Pool(slots, idle, out, nextId, closed)
    }

    constructor (maxConnections: nat, maxIdleSeconds: int)
      ensures Value() == EMPTY && !stop
      ensures this.maxConnections == maxConnections && this.maxIdleSeconds == maxIdleSeconds
    {
      this.maxConnections, this.maxIdleSeconds := maxConnections, maxIdleSeconds;
      slots, idle, out, nextId, closed, stop := [], map[], {}, 0, 0, false;
    }

    /** `createNewConnection` and the slot that stands for the connection while it is used. */
    method Open(host: string, port: nat, tls: bool, reachable: bool, now: int) returns (r: Option<Connection>)
      modifies this
      ensures (Value(), r) == Opened(old(Value()), host, port, tls, reachable, now) && stop == old(stop)
    {
      if !reachable {
        return None;
      }
      var c := Connection(nextId, host, port, tls, IDLE, true, now);
      c := Used(c, now);
      slots, out, nextId := slots + [None], out + {c.id}, nextId + 1;
      return Some(c);
    }

    method Sweep()
      modifies this`slots
      ensures slots == WithoutClosed(old(slots))
    {
      var i := 0;
      while i < |slots|
        invariant 0 <= i <= |slots| && WithoutClosed(old(slots)) == slots[..i] + WithoutClosed(slots[i..])
        decreases |slots| - i
      {
        ghost var before := slots;
        assert before[i..] == [before[i]] + before[i + 1..];
        if slots[i].Some? && slots[i].value.state == CLOSED {
          slots := slots[..i] + slots[i + 1..];
          assert slots[..i] == before[..i] && slots[i..] == before[i + 1..];
        } else {
          assert before[..i + 1] == before[..i] + [before[i]];
          i := i + 1;
        }
      }
      assert slots[..i] == slots && slots[i..] == [];
    }

    /** `getConnection`. */
    method Get(host: string, port: nat, tls: bool, reachable: bool, now: int) returns (r: Option<Connection>)
      modifies this
      ensures stop == old(stop)
      ensures if stop then r.None? && Value() == old(Value())
              else (Value(), r) == Got(old(Value()), maxConnections, host, port, tls, reachable, now)
    {
      if stop {
        return None;
      }
      var key := MakeKey(host, port, tls);
      if key in idle {
        var c := Used(idle[key], now);
        idle, out := idle - {key}, out + {c.id};
        return Some(c);
      }
      var i := 0;
      while i < |slots| && !(slots[i].Some? && Matches(slots[i].value, host, port, tls))
        invariant 0 <= i <= |slots| && FirstMatch(slots, host, port, tls) >= i
      {
        i := i + 1;
      }
      if i < |slots| {
        var c := Used(slots[i].value, now);
        slots, out := slots[i := None], out + {c.id};
        return Some(c);
      }
      if |slots| < maxConnections {
        r := Open(host, port, tls, reachable, now);
        return;
      }
      Sweep();
      if |slots| < maxConnections {
        r := Open(host, port, tls, reachable, now);
        return;
      }
      return None;
    }

    /** `returnConnection`. A connection with the same key in the map makes way, into an empty slot if there is one. */
    method Return(c: Connection)
      modifies this
      ensures Value() == Returned(old(Value()), c) && stop == old(stop)
    {
      out := out - {c.id};
      var i := FindEmpty();
      if c.state == CLOSED || !c.connected {
        if i < |slots| {
          slots := slots[..i] + slots[i + 1..];
        }
        return;
      }
      var key := Key(c);
      if key in idle && i < |slots| {
        slots := slots[i := Some(idle[key])];
      }
      idle := idle[key := c.(state := IDLE)];
    }

    method FindEmpty() returns (i: nat)
      ensures i == FirstEmpty(slots)
    {
      i := 0;
      while i < |slots| && slots[i].Some?
        invariant 0 <= i <= |slots| && FirstEmpty(slots) >= i
      {
        i := i + 1;
      }
    }

    /** `closeIdleConnections` at time `now`. */
    method CloseIdle(now: int)
      modifies this
      ensures Value() == CleanedUp(old(Value()), maxIdleSeconds, now) && stop == old(stop)
    {
      var kept, n := CloseIdleInMap(idle, maxIdleSeconds, now);
      idle, closed := kept, closed + n;
      CloseIdleInSlots(now);
    }

    method CloseIdleInSlots(now: int)
      modifies this`slots, this`closed
      ensures slots == Cleaned(old(slots), maxIdleSeconds, now)
      ensures closed == old(closed) + Expired(old(slots), maxIdleSeconds, now)
    {
      var i := 0;
      while i < |slots|
        invariant CleanedUpTo(old(slots), slots, i, maxIdleSeconds, now)
        invariant closed + Expired(slots[i..], maxIdleSeconds, now) == old(closed) + Expired(old(slots), maxIdleSeconds, now)
      {
        CleanedNext(slots, i, maxIdleSeconds, now);
        CleanedMore(old(slots), slots, i, maxIdleSeconds, now);
        if slots[i].Some? && IdleTooLong(slots[i].value, maxIdleSeconds, now) {
          ghost var rest := slots[i + 1..];
          slots, closed := slots[i := None], closed + 1;
          assert slots[i + 1..] == rest;
        }
        i := i + 1;
      }
      assert slots[..i] == slots && slots[i..] == [];
    }
  }
}
