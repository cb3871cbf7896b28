/** The idle-connection pool: checkout, one-shot guards, and rotation over the upstream addresses. */
module ConnectionPool {
  import opened Wrappers
  import opened Addresses
  import opened Rotation

  /** A connection handle and the time it was last returned. */
  datatype CachedConn = CachedConn(conn: nat, lastUsed: nat)
  {
    predicate Expired(idleTimeout: nat, now: nat) {
      now > lastUsed && now - lastUsed > idleTimeout
    }
  }

  /** The connection taken from the cache, if any, what stays cached, and what was dropped as expired. */
  datatype Taken = Taken(conn: Option<nat>, rest: seq<CachedConn>, dropped: seq<CachedConn>)

  function TakeFresh(cache: seq<CachedConn>, idleTimeout: nat, now: nat): (t: Taken)
    ensures forall i :: 0 <= i < |t.dropped| ==> t.dropped[i].Expired(idleTimeout, now)
    ensures |t.dropped| <= |cache| && t.dropped == cache[..|t.dropped|]
    ensures t.conn.Some? ==> |t.dropped| < |cache| && cache[|t.dropped|].conn == t.conn.value
                             && !cache[|t.dropped|].Expired(idleTimeout, now)
                             && t.rest == cache[|t.dropped| + 1..]
    ensures t.conn.None? ==> t.dropped == cache && t.rest == []
  {
    if cache == [] then Taken(None, [], [])
    else if cache[0].Expired(idleTimeout, now) then
      var t := TakeFresh(cache[1..], idleTimeout, now);
      t.(dropped := [cache[0]] + t.dropped)
    else Taken(Some(cache[0].conn), cache[1..], [])
  }

  /** Number of failed attempts before the first success among the first `n`; `n` when all fail. */
  function FailuresFirst(connects: seq<bool>, n: nat): (k: nat)
    requires n <= |connects|
    ensures k <= n && (forall i :: 0 <= i < k ==> !connects[i]) && (k < n ==> connects[k])
  {
    if n == 0 || connects[0] then 0 else 1 + FailuresFirst(connects[1..], n - 1)
  }

  datatype GuardState = GuardState(sender: Option<nat>, reported: bool)

  lemma TakeFreshStep(cache: seq<CachedConn>, idleTimeout: nat, now: nat)
    requires cache != []
    ensures var t := TakeFresh(cache, idleTimeout, now);
            && (!cache[0].Expired(idleTimeout, now) ==> t.conn == Some(cache[0].conn) && t.rest == cache[1..])
            && (cache[0].Expired(idleTimeout, now) ==>
                  var later := TakeFresh(cache[1..], idleTimeout, now); t.conn == later.conn && t.rest == later.rest)
  {
    hide CachedConn.Expired;
  }

  /** What a report does to the guard and to the cache; `alive` tells whether the pool still exists. */
  function Reported(g: GuardState, cache: seq<CachedConn>, success: bool, now: nat, alive: bool): (GuardState,
                    seq<CachedConn>) {
    if g.reported then (g, cache)
    else (GuardState(None, true),
          if g.sender.Some? && alive && success then [CachedConn(g.sender.value, now)] + cache else cache)
  }

  class Pool {
    const addresses: seq<SocketAddr>
    const idleTimeout: nat
    var cache: seq<CachedConn>
    var cursor: nat

    /** Addresses are sorted and repeats removed. */
    constructor (addresses: seq<SocketAddr>, idleTimeout: nat)
      ensures this.addresses == PoolAddresses(addresses) && this.idleTimeout == idleTimeout
      ensures cache == [] && cursor == 0
    {
      this.addresses, this.idleTimeout := PoolAddresses(addresses), idleTimeout;
      cache, cursor := [], 0;
    }

    method NextAddr() returns (r: Option<SocketAddr>)
      requires cursor < WORD
      modifies this`cursor
      ensures |addresses| == 0 ==> r.None? && cursor == old(cursor)
      ensures |addresses| > 0 ==> r == Some(addresses[Chosen(|addresses|, old(cursor), 0)])
                                  && cursor == (old(cursor) + 1) % WORD
    {
      var n := |addresses|;
      if n == 0 {
        return None;
      }
      ModSmall(cursor, WORD);
      var idx := cursor % n;
      cursor := (cursor + 1) % WORD;
      r := Some(addresses[idx]);
    }

    /** Reuses the newest idle connection that has not expired; otherwise connects to one address after
        another. `connects` tells which attempts succeed, `newConn` names the connection then made. */
    method Checkout(now: nat, connects: seq<bool>, newConn: nat)
      returns (guard: Option<CheckoutGuard>, ghost tried: seq<SocketAddr>)
      requires cursor < WORD && |connects| >= |addresses|
      modifies this`cache, this`cursor
      ensures cursor < WORD
      ensures var t := TakeFresh(old(cache), idleTimeout, now);
              var n, k := |addresses|, FailuresFirst(connects, |addresses|);
              && cache == t.rest
              && (t.conn.Some? ==> tried == [] && cursor == old(cursor) && guard.Some?)
              && (t.conn.None? ==> |tried| == (if k < n then k + 1 else n) && (guard.Some? <==> k < n))
              && (guard.Some? ==> fresh(guard.value) && guard.value.pool == this
                                  && guard.value.State() ==
                                      GuardState(if t.conn.Some? then t.conn else Some(newConn), false))
      ensures forall i :: 0 <= i < |tried| ==>
          |addresses| > 0 && tried[i] == addresses[Chosen(|addresses|, old(cursor), i)]
    {
      hide Chosen, TakeFresh, FailuresFirst, CachedConn.Expired;
      tried := [];
      while cache != []
        invariant TakeFresh(old(cache), idleTimeout, now).conn == TakeFresh(cache, idleTimeout, now).conn
        invariant TakeFresh(old(cache), idleTimeout, now).rest == TakeFresh(cache, idleTimeout, now).rest
        invariant cursor == old(cursor)
        decreases |cache|
      {
        TakeFreshStep(cache, idleTimeout, now);
        var conn := cache[0];
        cache := cache[1..];
        if conn.Expired(idleTimeout, now) {
          continue;
        }
        var g := new CheckoutGuard(conn.conn, this);
        return Some(g), [];
      }
      var n := |addresses|;
      if n == 0 {
        return None, [];
      }
      for i := 0 to n
        invariant cache == [] && cursor == (old(cursor) + i) % WORD
        invariant |tried| == i && i <= FailuresFirst(connects, n)
        invariant forall k :: 0 <= k < i ==> tried[k] == addresses[Chosen(n, old(cursor), k)]
      {
        var addr := NextAddr();
        ChosenNow(n, old(cursor), i);
        tried := tried + [addr.value];
        if connects[i] {
          var g := new CheckoutGuard(newConn, this);
          return Some(g), tried;
        }
      }
      guard := None;
    }

    /** A connection goes back to the front of the cache after a success and is dropped after a failure. */
    method Release(conn: nat, success: bool, now: nat)
      modifies this`cache
      ensures cache == if success then [CachedConn(conn, now)] + old(cache) else old(cache)
    {
      if !success {
        return;
      }
      cache := [CachedConn(conn, now)] + cache;
    }
  }

  lemma ChosenNow(n: nat, cursor: nat, i: nat)
    requires n > 0
    ensures Chosen(n, (cursor + i) % WORD, 0) == Chosen(n, cursor, i)
    ensures ((cursor + i) % WORD + 1) % WORD == (cursor + (i + 1)) % WORD
  {
    ModSmall((cursor + i) % WORD, WORD);
  }

  class CheckoutGuard {
    var sender: Option<nat>
    const pool: Pool
    var reported: bool

    function State(): GuardState
      reads this
    {
      GuardState(sender, reported)
    }

    constructor (conn: nat, pool: Pool)
      ensures State() == GuardState(Some(conn), false) && this.pool == pool
    {
      sender, reported, this.pool := Some(conn), false, pool;
    }

    method Report(success: bool, now: nat, alive: bool)
      modifies this, pool`cache
      ensures (State(), pool.cache) == Reported(old(State()), old(pool.cache), success, now, alive)
    {
      if reported {
        return;
      }
      var conn := sender;
      sender := None;
      if conn.Some? && alive {
        pool.Release(conn.value, success, now);
      }
      reported := true;
    }

    /** Recording a success and then letting go of the guard releases the connection once. */
    method RecordSuccess(now: nat, alive: bool)
      modifies this, pool`cache
      ensures (State(), pool.cache) == Reported(old(State()), old(pool.cache), true, now, alive)
    {
      Report(true, now, alive);
      Drop(now, alive);
    }

    /** After a recorded failure, letting go of the guard does not release the connection. */
    method RecordFailure(now: nat, alive: bool)
      modifies this, pool`cache
      ensures (State(), pool.cache) == Reported(old(State()), old(pool.cache), false, now, alive)
    {
      Report(false, now, alive);
      Drop(now, alive);
    }

    /** A guard that is dropped without a report counts as a success. */
    method Drop(now: nat, alive: bool)
      modifies this, pool`cache
      ensures (State(), pool.cache) == Reported(old(State()), old(pool.cache), true, now, alive)
    {
      Report(true, now, alive);
    }
  }

  // ---------------------------------------------------------------------------
  // Address coverage
  // ---------------------------------------------------------------------------

  /** The addresses tried by `attempts` attempts from cursor value `cursor`. */
  function TriedFrom(addresses: seq<SocketAddr>, cursor: nat, attempts: nat): (r: seq<SocketAddr>)
    requires addresses != []
    ensures |r| == attempts
  {
    seq(attempts, i requires 0 <= i < attempts => addresses[Chosen(|addresses|, cursor, i)])
  }

  /** A full round of failed attempts tries every address exactly once, unless the cursor wraps on the
      way and the word size is not a multiple of the number of addresses. */
  lemma FullRoundExactly(addresses: seq<SocketAddr>, cursor: nat)
    requires addresses != [] && StrictlyAscending(addresses) && |addresses| <= WORD && cursor < WORD
    ensures (forall a :: a in addresses ==> TriedOnce(TriedFrom(addresses, cursor, |addresses|), a)) <==>
            cursor + |addresses| <= WORD || WORD % |addresses| == 0
  {
    hide Chosen, Served, TriedOnce, TriedFrom, StrictlyAscending;
    var n := |addresses|;
    var tried := TriedFrom(addresses, cursor, n);
    FairExactly(n, cursor);
    if Fair(n, cursor) {
      forall a | a in addresses ensures TriedOnce(tried, a) {
        var j :| 0 <= j < n && addresses[j] == a;
        ServedIsTried(addresses, cursor, j);
      }
    }
    if forall a :: a in addresses ==> TriedOnce(tried, a) {
      forall j | 0 <= j < n ensures Served(n, cursor, j) {
        assert addresses[j] in addresses;
        ServedIsTried(addresses, cursor, j);
      }
    }
  }

  lemma ServedIsTried(addresses: seq<SocketAddr>, cursor: nat, j: nat)
    requires StrictlyAscending(addresses) && j < |addresses|
    ensures Served(|addresses|, cursor, j) <==> TriedOnce(TriedFrom(addresses, cursor, |addresses|), addresses[j])
  {
    hide Chosen, StrictlyAscending;
    var n := |addresses|;
    var tried := TriedFrom(addresses, cursor, n);
    forall q | 0 <= q < n ensures tried[q] == addresses[j] <==> Chosen(n, cursor, q) == j {
      if tried[q] == addresses[j] {
        DistinctAddresses(addresses, Chosen(n, cursor, q), j);
      }
    }
    if Served(n, cursor, j) {
      var q :| 0 <= q < n && Chosen(n, cursor, q) == j && OnlyAt(n, cursor, q);
      assert tried[q] == addresses[j];
    }
    if TriedOnce(tried, addresses[j]) {
      var q :| 0 <= q < n && tried[q] == addresses[j] && forall p :: 0 <= p < n && tried[p] == addresses[j] ==> p == q;
      assert OnlyAt(n, cursor, q);
    }
  }

  ghost predicate TriedOnce(tried: seq<SocketAddr>, a: SocketAddr) {
    exists q :: 0 <= q < |tried| && tried[q] == a && forall p :: 0 <= p < |tried| && tried[p] == a ==> p == q
  }

  lemma DistinctAddresses(addresses: seq<SocketAddr>, i: nat, j: nat)
    requires StrictlyAscending(addresses) && i < |addresses| && j < |addresses| && addresses[i] == addresses[j]
    ensures i == j
  {
    LessIsStrictOrder(addresses[i], addresses[j], addresses[i]);
  }
}
