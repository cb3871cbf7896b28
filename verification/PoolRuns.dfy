/** Whole runs of the connection pool: where every connection ever made is. */
module PoolRuns {
  import opened Wrappers
  import opened ConnectionPool

  /** The idle cache, the guards handed out, how many connections were made (they are numbered from 0),
      those dropped for good, and how often each guard has put its connection back. */
  datatype World = World(
    now: nat,
    alive: bool,
    cache: seq<CachedConn>,
    guards: map<nat, GuardState>,
    releases: map<nat, nat>,
    created: nat,
    discarded: set<nat>)

  datatype Step =
    | Tick(duration: nat)
    | Checkout(guard: nat, connects: bool)
    | Report(guard: nat, success: bool)
    | Drop(guard: nat)
    | Close

  const INITIAL: World := World(0, true, [], map[], map[], 0, {})

  function Conns(cache: seq<CachedConn>): (r: set<nat>)
    ensures forall i :: 0 <= i < |cache| ==> cache[i].conn in r
  {
    set i | 0 <= i < |cache| :: cache[i].conn
  }

  /** A report or a drop: the connection leaves the guard for the cache or for good. */
  function ReportStep(w: World, id: nat, success: bool): World
    requires id in w.guards && id in w.releases
  {
    var g := w.guards[id];
    var (g', cache') := Reported(g, w.cache, success, w.now, w.alive);
    var back := cache' != w.cache;
    w.(cache := cache', guards := w.guards[id := g'],
       releases := w.releases[id := w.releases[id] + if back then 1 else 0],
       discarded := if g.sender.Some? && g'.sender.None? && !back then w.discarded + {g.sender.value} else w.discarded)
  }

  function CheckoutStep(idleTimeout: nat, w: World, id: nat, connects: bool): World {
    var t := TakeFresh(w.cache, idleTimeout, w.now);
    var w' := w.(cache := t.rest, discarded := w.discarded + Conns(t.dropped), releases := w.releases[id := 0]);
    if t.conn.Some? then w'.(guards := w.guards[id := GuardState(t.conn, false)])
    else if connects then w'.(guards := w.guards[id := GuardState(Some(w.created), false)], created := w.created + 1)
    else w'
  }

  /** One step; guards are numbered by their checkout, so a number is used once. */
  function Apply(idleTimeout: nat, w: World, step: Step): World {
    match step
    case Tick(d) => w.(now := w.now + d)
    case Checkout(id, connects) =>
      if w.alive && id !in w.releases then CheckoutStep(idleTimeout, w, id, connects) else w
    case Report(id, success) =>
      if id in w.guards && id in w.releases then ReportStep(w, id, success) else w
    case Drop(id) =>
      if id in w.guards && id in w.releases then
        var w' := ReportStep(w, id, true);
        w'.(guards := w'.guards - {id})
      else w
    case Close => w.(alive := false, cache := [], discarded := w.discarded + Conns(w.cache))
  }

  function Run(idleTimeout: nat, steps: seq<Step>): World {
    if steps == [] then INITIAL
    else Apply(idleTimeout, Run(idleTimeout, steps[..|steps| - 1]), steps[|steps| - 1])
  }

  // ---------------------------------------------------------------------------
  // Where a connection is
  // ---------------------------------------------------------------------------

  predicate Cached(w: World, c: nat) {
    exists i :: 0 <= i < |w.cache| && w.cache[i].conn == c
  }

  predicate Held(w: World, c: nat) {
    exists id :: id in w.guards && w.guards[id].sender == Some(c)
  }

  ghost predicate NoRepeats(cache: seq<CachedConn>) {
    forall i, j :: 0 <= i < j < |cache| ==> cache[i].conn != cache[j].conn
  }

  /** The cache is ordered by time of return, newest first. */
  ghost predicate NewestFirst(cache: seq<CachedConn>, now: nat) {
    && (forall i, j :: 0 <= i < j < |cache| ==> cache[j].lastUsed <= cache[i].lastUsed)
    && (forall i :: 0 <= i < |cache| ==> cache[i].lastUsed <= now)
  }

  /** Every connection made is in exactly one place: once in the cache, in one guard, or discarded. */
  ghost predicate Conserved(w: World) {
    && NoRepeats(w.cache)
    && (forall i :: 0 <= i < |w.cache| ==> w.cache[i].conn < w.created && w.cache[i].conn !in w.discarded)
    && (forall id :: id in w.guards && w.guards[id].sender.Some? ==> HeldOnly(w, id, w.guards[id].sender.value))
    && (forall c :: c in w.discarded ==> c < w.created)
    && (forall c :: 0 <= c < w.created ==> Placed(w, c))
  }

  /** Guard `id` holds `c` and nothing else does. */
  ghost predicate HeldOnly(w: World, id: nat, c: nat) {
    && c < w.created && c !in w.discarded
    && (forall i :: 0 <= i < |w.cache| ==> w.cache[i].conn != c)
    && (forall other :: other in w.guards && w.guards[other].sender == Some(c) ==> other == id)
  }

  ghost predicate Placed(w: World, c: nat) {
    c in w.discarded || Cached(w, c) || Held(w, c)
  }

  /** A guard that has reported holds nothing; nobody has put a connection back twice. */
  ghost predicate OneShot(w: World) {
    && w.guards.Keys <= w.releases.Keys
    && (forall id :: id in w.guards && w.guards[id].reported ==> w.guards[id].sender.None?)
    && (forall id :: id in w.releases ==> w.releases[id] <= 1)
    && (forall id :: id in w.guards && !w.guards[id].reported ==> w.releases[id] == 0)
  }

  ghost predicate Inv(w: World) {
    Conserved(w) && OneShot(w) && NewestFirst(w.cache, w.now)
  }

  // ---------------------------------------------------------------------------
  // Every step keeps it
  // ---------------------------------------------------------------------------

  lemma ReportHolders(w: World, id: nat, success: bool)
    requires Inv(w) && id in w.guards && id in w.releases && !w.guards[id].reported && w.guards[id].sender.Some?
    ensures var w' := ReportStep(w, id, success);
            forall other :: other in w'.guards && w'.guards[other].sender.Some? ==>
                              HeldOnly(w', other, w'.guards[other].sender.value)
  {
    hide Placed, OneShot, NewestFirst;
    var w' := ReportStep(w, id, success);
    assert HeldOnly(w, id, w.guards[id].sender.value);
    forall other | other in w'.guards && w'.guards[other].sender.Some?
      ensures HeldOnly(w', other, w'.guards[other].sender.value)
    {
      assert other != id && HeldOnly(w, other, w.guards[other].sender.value);
    }
  }

  lemma ReportPlaces(w: World, id: nat, success: bool)
    requires Inv(w) && id in w.guards && id in w.releases && !w.guards[id].reported && w.guards[id].sender.Some?
    ensures var w' := ReportStep(w, id, success);
            forall c :: 0 <= c < w'.created ==> Placed(w', c)
  {
    hide HeldOnly, OneShot, NewestFirst;
    var w', conn := ReportStep(w, id, success), w.guards[id].sender.value;
    forall c | 0 <= c < w'.created ensures Placed(w', c) {
      assert Placed(w, c);
      if c == conn {
        if w.alive && success {
          assert w'.cache[0].conn == c;
        }
      } else if Cached(w, c) {
        var i :| 0 <= i < |w.cache| && w.cache[i].conn == c;
        assert w'.cache[if w.alive && success then i + 1 else i].conn == c;
      } else if Held(w, c) {
        var other :| other in w.guards && w.guards[other].sender == Some(c);
        assert other in w'.guards && w'.guards[other].sender == Some(c);
      }
    }
  }

  lemma ReportKeepsPlaces(w: World, id: nat, success: bool)
    requires Inv(w) && id in w.guards && id in w.releases
    ensures Conserved(ReportStep(w, id, success))
  {
    hide Placed;
    var g := w.guards[id];
    if !g.reported && g.sender.Some? {
      ReportHolders(w, id, success);
      ReportPlaces(w, id, success);
      assert HeldOnly(w, id, g.sender.value);
    } else {
      SameHolders(w, ReportStep(w, id, success), id);
    }
  }

  /** Marking a guard without a connection as reported moves nothing. */
  lemma SameHolders(w: World, w': World, id: nat)
    requires Inv(w) && id in w.guards && w.guards[id].sender.None?
    requires w'.cache == w.cache && w'.created == w.created && w'.discarded == w.discarded
    requires w'.guards.Keys == w.guards.Keys && w'.guards[id].sender.None?
    requires forall other :: other in w.guards && other != id ==> w'.guards[other] == w.guards[other]
    ensures Conserved(w')
  {
    forall other | other in w'.guards && w'.guards[other].sender.Some?
      ensures HeldOnly(w', other, w'.guards[other].sender.value)
    {
      assert HeldOnly(w, other, w.guards[other].sender.value);
    }
    forall c | 0 <= c < w'.created ensures Placed(w', c) {
      assert Placed(w, c);
      if Cached(w, c) {
        var i :| 0 <= i < |w.cache| && w.cache[i].conn == c;
        assert w'.cache[i].conn == c;
      } else if Held(w, c) {
        var other :| other in w.guards && w.guards[other].sender == Some(c);
        assert other in w'.guards && w'.guards[other].sender == Some(c);
      }
    }
  }

  lemma ReportKeepsInv(w: World, id: nat, success: bool)
    requires Inv(w) && id in w.guards && id in w.releases
    ensures Inv(ReportStep(w, id, success))
    ensures ReportStep(w, id, success).guards[id] == GuardState(None, true)
  {
    ReportKeepsPlaces(w, id, success);
    hide Conserved;
    var w', g := ReportStep(w, id, success), w.guards[id];
    if g.reported {
      assert g == GuardState(None, true);
    } else if g.sender.Some? && w.alive && success {
      assert w'.cache == [CachedConn(g.sender.value, w.now)] + w.cache;
    }
  }

  lemma DropKeepsInv(w: World, id: nat)
    requires Inv(w) && id in w.guards && w.guards[id] == GuardState(None, true)
    ensures Inv(w.(guards := w.guards - {id}))
  {
    var w' := w.(guards := w.guards - {id});
    forall other | other in w'.guards && w'.guards[other].sender.Some?
      ensures HeldOnly(w', other, w'.guards[other].sender.value)
    {
      assert HeldOnly(w, other, w.guards[other].sender.value);
    }
    forall c | 0 <= c < w'.created ensures Placed(w', c) {
      assert Placed(w, c);
      if Cached(w, c) {
        var i :| 0 <= i < |w.cache| && w.cache[i].conn == c;
        assert w'.cache[i].conn == c;
      } else if Held(w, c) {
        var other :| other in w.guards && w.guards[other].sender == Some(c);
        assert other in w'.guards && w'.guards[other].sender == Some(c);
      }
    }
  }

  function Shortened(w: World, n: nat, alive: bool): World
    requires n <= |w.cache|
  {
    w.(alive := alive, cache := w.cache[n..], discarded := w.discarded + Conns(w.cache[..n]))
  }

  lemma FrontConns(cache: seq<CachedConn>, n: nat, c: nat)
    requires n <= |cache|
    ensures c in Conns(cache[..n]) <==> exists i :: 0 <= i < n && cache[i].conn == c
  {
    if i :| 0 <= i < n && cache[i].conn == c {
      assert cache[..n][i].conn == c;
    }
  }

  lemma ShortenHolders(w: World, n: nat, alive: bool)
    requires Conserved(w) && n <= |w.cache|
    ensures var w' := Shortened(w, n, alive);
            forall other :: other in w'.guards && w'.guards[other].sender.Some? ==>
                              HeldOnly(w', other, w'.guards[other].sender.value)
  {
    hide Placed, Conns, NoRepeats;
    var w' := Shortened(w, n, alive);
    forall other | other in w'.guards && w'.guards[other].sender.Some?
      ensures HeldOnly(w', other, w'.guards[other].sender.value)
    {
      assert HeldOnly(w, other, w.guards[other].sender.value);
      FrontConns(w.cache, n, w.guards[other].sender.value);
    }
  }

  lemma ShortenPlaces(w: World, n: nat, alive: bool)
    requires Conserved(w) && n <= |w.cache|
    ensures var w' := Shortened(w, n, alive);
            forall c :: 0 <= c < w'.created ==> Placed(w', c)
  {
    hide HeldOnly, Conns, NoRepeats;
    var w' := Shortened(w, n, alive);
    forall c | 0 <= c < w'.created ensures Placed(w', c) {
      assert Placed(w, c);
      FrontConns(w.cache, n, c);
      if Cached(w, c) {
        var i :| 0 <= i < |w.cache| && w.cache[i].conn == c;
        if i >= n {
          assert w'.cache[i - n].conn == c;
        }
      } else if Held(w, c) {
        var other :| other in w.guards && w.guards[other].sender == Some(c);
        assert other in w'.guards && w'.guards[other].sender == Some(c);
      }
    }
  }

  /** Dropping the front of the cache, or all of it, leaves the rest where it was. */
  lemma ShortenKeepsInv(w: World, n: nat, alive: bool)
    requires Inv(w) && n <= |w.cache|
    ensures Inv(w.(alive := alive, cache := w.cache[n..], discarded := w.discarded + Conns(w.cache[..n])))
  {
    hide HeldOnly, Placed, Conns;
    var w' := Shortened(w, n, alive);
    ShortenHolders(w, n, alive);
    ShortenPlaces(w, n, alive);
    assert forall i :: 0 <= i < |w'.cache| ==> w'.cache[i] == w.cache[n + i];
    forall i | 0 <= i < |w'.cache| ensures w'.cache[i].conn !in w'.discarded {
      FrontConns(w.cache, n, w'.cache[i].conn);
    }
    forall c | c in w'.discarded ensures c < w'.created {
      FrontConns(w.cache, n, c);
    }
  }

  /** A cached connection, or one not made yet, is held by no guard. */
  lemma NobodyElse(w: World, c: nat)
    requires Conserved(w) && (Cached(w, c) || c >= w.created)
    ensures forall o :: o in w.guards ==> w.guards[o].sender != Some(c)
  {
    forall o | o in w.guards && w.guards[o].sender.Some? ensures w.guards[o].sender.value != c {
      assert HeldOnly(w, o, w.guards[o].sender.value);
    }
  }

  function Lent(w: World, id: nat): World
    requires w.cache != []
  {
    w.(cache := w.cache[1..], guards := w.guards[id := GuardState(Some(w.cache[0].conn), false)],
       releases := w.releases[id := 0])
  }

  lemma LendHolders(w: World, id: nat)
    requires Inv(w) && w.cache != [] && id !in w.releases
    ensures var w' := Lent(w, id);
            forall other :: other in w'.guards && w'.guards[other].sender.Some? ==>
                              HeldOnly(w', other, w'.guards[other].sender.value)
  {
    hide Placed, NewestFirst;
    var w' := Lent(w, id);
    assert forall i :: 0 <= i < |w'.cache| ==> w'.cache[i] == w.cache[i + 1];
    assert w.cache[0].conn == w.cache[0].conn && Cached(w, w.cache[0].conn);
    NobodyElse(w, w.cache[0].conn);
    forall other | other in w'.guards && w'.guards[other].sender.Some?
      ensures HeldOnly(w', other, w'.guards[other].sender.value)
    {
      if other != id {
        assert HeldOnly(w, other, w.guards[other].sender.value);
      }
    }
  }

  lemma LendPlaces(w: World, id: nat)
    requires Inv(w) && w.cache != [] && id !in w.releases
    ensures var w' := Lent(w, id);
            forall c :: 0 <= c < w'.created ==> Placed(w', c)
  {
    hide HeldOnly, NewestFirst, NoRepeats;
    var w' := Lent(w, id);
    forall c | 0 <= c < w'.created ensures Placed(w', c) {
      assert Placed(w, c);
      if Cached(w, c) {
        var i :| 0 <= i < |w.cache| && w.cache[i].conn == c;
        if i == 0 {
          assert id in w'.guards && w'.guards[id].sender == Some(c);
        } else {
          assert w'.cache[i - 1].conn == c;
        }
      } else if Held(w, c) {
        var other :| other in w.guards && w.guards[other].sender == Some(c);
        assert other in w'.guards && w'.guards[other].sender == Some(c);
      }
    }
  }

  /** The front of the cache moves into a new guard. */
  lemma LendKeepsInv(w: World, id: nat)
    requires Inv(w) && w.cache != [] && id !in w.releases
    ensures Inv(w.(cache := w.cache[1..], guards := w.guards[id := GuardState(Some(w.cache[0].conn), false)],
                   releases := w.releases[id := 0]))
  {
    hide HeldOnly, Placed;
    var w' := Lent(w, id);
    LendHolders(w, id);
    LendPlaces(w, id);
    assert forall i :: 0 <= i < |w'.cache| ==> w'.cache[i] == w.cache[i + 1];
    assert Conserved(w') && OneShot(w') && NewestFirst(w'.cache, w'.now);
  }

  function Created(w: World, id: nat): World {
    w.(guards := w.guards[id := GuardState(Some(w.created), false)], created := w.created + 1,
       releases := w.releases[id := 0])
  }

  lemma CreateHolders(w: World, id: nat)
    requires Inv(w) && id !in w.releases
    ensures var w' := Created(w, id);
            forall other :: other in w'.guards && w'.guards[other].sender.Some? ==>
                              HeldOnly(w', other, w'.guards[other].sender.value)
  {
    hide Placed, NewestFirst;
    var w' := Created(w, id);
    NobodyElse(w, w.created);
    forall other | other in w'.guards && w'.guards[other].sender.Some?
      ensures HeldOnly(w', other, w'.guards[other].sender.value)
    {
      if other != id {
        assert HeldOnly(w, other, w.guards[other].sender.value);
      }
    }
  }

  lemma CreatePlaces(w: World, id: nat)
    requires Inv(w) && id !in w.releases
    ensures var w' := Created(w, id);
            forall c :: 0 <= c < w'.created ==> Placed(w', c)
  {
    hide HeldOnly, NewestFirst, NoRepeats;
    var w' := Created(w, id);
    forall c | 0 <= c < w'.created ensures Placed(w', c) {
      if c == w.created {
        assert id in w'.guards && w'.guards[id].sender == Some(c);
      } else {
        assert Placed(w, c);
        if Cached(w, c) {
          var i :| 0 <= i < |w.cache| && w.cache[i].conn == c;
          assert w'.cache[i].conn == c;
        } else if Held(w, c) {
          var other :| other in w.guards && w.guards[other].sender == Some(c);
          assert other in w'.guards && w'.guards[other].sender == Some(c);
        }
      }
    }
  }

  /** A connection just made goes into a new guard. */
  lemma CreateKeepsInv(w: World, id: nat)
    requires Inv(w) && id !in w.releases
    ensures Inv(w.(guards := w.guards[id := GuardState(Some(w.created), false)], created := w.created + 1,
                   releases := w.releases[id := 0]))
  {
    hide HeldOnly, Placed, OneShot, NewestFirst, NoRepeats;
    CreateHolders(w, id);
    CreatePlaces(w, id);
    CreateIsOneShot(w, id);
    assert Conserved(Created(w, id));
  }

  lemma CreateIsOneShot(w: World, id: nat)
    requires Inv(w) && id !in w.releases
    ensures OneShot(Created(w, id))
  {
    hide Conserved, NewestFirst;
  }

  lemma CheckoutKeepsInv(idleTimeout: nat, w: World, id: nat, connects: bool)
    requires Inv(w) && id !in w.releases
    ensures Inv(CheckoutStep(idleTimeout, w, id, connects))
  {
    hide Conserved, NewestFirst, Conns;
    var t := TakeFresh(w.cache, idleTimeout, w.now);
    var n := |t.dropped|;
    ShortenKeepsInv(w, n, w.alive);
    var w1 := w.(cache := w.cache[n..], discarded := w.discarded + Conns(w.cache[..n]));
    assert w1 == w.(alive := w.alive, cache := w.cache[n..], discarded := w.discarded + Conns(w.cache[..n]));
    assert t.dropped == w.cache[..n];
    if t.conn.Some? {
      LendKeepsInv(w1, id);
      assert w1.cache[1..] == t.rest;
      assert CheckoutStep(idleTimeout, w, id, connects)
          == w1.(cache := w1.cache[1..], guards := w1.guards[id := GuardState(Some(w1.cache[0].conn), false)],
                 releases := w1.releases[id := 0]);
    } else if connects {
      CreateKeepsInv(w1, id);
      assert w1.cache == t.rest;
    } else {
      assert w1.cache == t.rest;
      NumberKeepsInv(w1, id);
    }
  }

  lemma NumberKeepsInv(w: World, id: nat)
    requires Inv(w) && id !in w.releases
    ensures Inv(w.(releases := w.releases[id := 0]))
  {
    var w' := w.(releases := w.releases[id := 0]);
    forall other | other in w'.guards && w'.guards[other].sender.Some?
      ensures HeldOnly(w', other, w'.guards[other].sender.value)
    {
      assert HeldOnly(w, other, w.guards[other].sender.value);
    }
    forall c | 0 <= c < w'.created ensures Placed(w', c) {
      assert Placed(w, c);
    }
  }

  lemma StepKeepsInv(idleTimeout: nat, w: World, step: Step)
    requires Inv(w)
    ensures Inv(Apply(idleTimeout, w, step))
  {
    hide Inv, CheckoutStep, ReportStep;
    match step {
      case Tick(d) =>
        TimeKeepsInv(w, d);
      case Checkout(id, connects) =>
        if w.alive && id !in w.releases {
          CheckoutKeepsInv(idleTimeout, w, id, connects);
        }
      case Report(id, success) =>
        if id in w.guards && id in w.releases {
          ReportKeepsInv(w, id, success);
        }
      case Drop(id) =>
        DropStepKeepsInv(w, id);
      case Close =>
        CloseKeepsInv(w);
    }
  }

  lemma DropStepKeepsInv(w: World, id: nat)
    requires Inv(w)
    ensures id in w.guards && id in w.releases ==>
              var w' := ReportStep(w, id, true); Inv(w'.(guards := w'.guards - {id}))
  {
    hide Inv;
    if id in w.guards && id in w.releases {
      ReportKeepsInv(w, id, true);
      DropKeepsInv(ReportStep(w, id, true), id);
    }
  }

  lemma CloseKeepsInv(w: World)
    requires Inv(w)
    ensures Inv(w.(alive := false, cache := [], discarded := w.discarded + Conns(w.cache)))
  {
    hide Inv;
    ShortenKeepsInv(w, |w.cache|, false);
    assert w.cache[|w.cache|..] == [] && w.cache[..|w.cache|] == w.cache;
  }

  lemma TimeKeepsInv(w: World, d: nat)
    requires Inv(w)
    ensures Inv(w.(now := w.now + d))
  {
    var w' := w.(now := w.now + d);
    forall other | other in w'.guards && w'.guards[other].sender.Some?
      ensures HeldOnly(w', other, w'.guards[other].sender.value)
    {
      assert HeldOnly(w, other, w.guards[other].sender.value);
    }
    forall c | 0 <= c < w'.created ensures Placed(w', c) {
      assert Placed(w, c);
    }
  }

  /** In every run, each connection made is in exactly one place, no guard puts one back twice, and the
      cache is ordered newest first. */
  lemma {:induction false} RunKeepsInv(idleTimeout: nat, steps: seq<Step>)
    ensures Inv(Run(idleTimeout, steps))
  {
    if steps != [] {
      RunKeepsInv(idleTimeout, steps[..|steps| - 1]);
      StepKeepsInv(idleTimeout, Run(idleTimeout, steps[..|steps| - 1]), steps[|steps| - 1]);
    }
  }

  // ---------------------------------------------------------------------------
  // Consequences
  // ---------------------------------------------------------------------------

  lemma StepKeepsDiscarded(idleTimeout: nat, w: World, step: Step)
    ensures w.discarded <= Apply(idleTimeout, w, step).discarded
  {
  }

  lemma {:induction false} RunKeepsDiscarded(idleTimeout: nat, before: seq<Step>, after: seq<Step>)
    ensures Run(idleTimeout, before).discarded <= Run(idleTimeout, before + after).discarded
  {
    hide Apply;
    if after == [] {
      assert before + after == before;
    } else {
      var n := |after| - 1;
      RunKeepsDiscarded(idleTimeout, before, after[..n]);
      assert (before + after)[..|before| + n] == before + after[..n];
      StepKeepsDiscarded(idleTimeout, Run(idleTimeout, before + after[..n]), after[n]);
    }
  }

  /** A connection whose query failed is never cached or handed out again, whatever happens later. */
  lemma FailedNeverReturns(idleTimeout: nat, before: seq<Step>, id: nat, after: seq<Step>)
    requires var w := Run(idleTimeout, before); id in w.guards && w.guards[id].sender.Some?
    ensures var c := Run(idleTimeout, before).guards[id].sender.value;
            var w' := Run(idleTimeout, before + [Report(id, false)] + after);
            !Cached(w', c) && !Held(w', c)
  {
    hide Conserved, NewestFirst;
    var w, failed := Run(idleTimeout, before), before + [Report(id, false)];
    RunKeepsInv(idleTimeout, before);
    assert failed[..|before|] == before;
    assert Run(idleTimeout, failed) == Apply(idleTimeout, w, Report(id, false));
    var c := w.guards[id].sender.value;
    assert c in Run(idleTimeout, failed).discarded;
    RunKeepsDiscarded(idleTimeout, failed, after);
    RunKeepsInv(idleTimeout, failed + after);
    DiscardedIsGone(Run(idleTimeout, failed + after), c);
  }

  lemma DiscardedIsGone(w: World, c: nat)
    requires Conserved(w) && c in w.discarded
    ensures !Cached(w, c) && !Held(w, c)
  {
  }

  /** A checkout finds an unexpired idle connection whenever there is one, takes the one returned last,
      and throws away only expired ones; if it has to throw any away, it empties the cache. */
  lemma CheckoutTakesNewest(idleTimeout: nat, steps: seq<Step>)
    ensures var w := Run(idleTimeout, steps);
            var t := TakeFresh(w.cache, idleTimeout, w.now);
            && (t.conn.Some? <==> exists i :: 0 <= i < |w.cache| && !w.cache[i].Expired(idleTimeout, w.now))
            && (t.conn.Some? ==> t.dropped == [] && t.rest == w.cache[1..] && t.conn == Some(w.cache[0].conn)
                                 && forall i :: 0 <= i < |w.cache| ==> w.cache[i].lastUsed <= w.cache[0].lastUsed)
            && (forall i :: 0 <= i < |t.dropped| ==> t.dropped[i].Expired(idleTimeout, w.now))
            && (t.dropped != [] ==> t.rest == [])
  {
    RunKeepsInv(idleTimeout, steps);
    var w := Run(idleTimeout, steps);
    var t := TakeFresh(w.cache, idleTimeout, w.now);
    if t.dropped != [] {
      assert w.cache[0] == t.dropped[0];
      assert w.cache[0].Expired(idleTimeout, w.now);
      forall i | 0 <= i < |w.cache| ensures w.cache[i].Expired(idleTimeout, w.now) {
      }
    }
  }

  lemma RunOneMore(idleTimeout: nat, steps: seq<Step>, step: Step)
    ensures Run(idleTimeout, steps + [step]) == Apply(idleTimeout, Run(idleTimeout, steps), step)
  {
    hide Apply;
    assert (steps + [step])[..|steps|] == steps;
  }

  /** A connection that a guard has given back is handed out again by a checkout within the idle timeout,
      the last instant included; after that the checkout throws it away. */
  lemma ReturnedIsReusedExactly(idleTimeout: nat, steps: seq<Step>, id: nat, c: nat, wait: nat, next: nat,
                                connects: bool)
    requires var w := Run(idleTimeout, steps);
             && w.alive && id in w.guards && !w.guards[id].reported && w.guards[id].sender == Some(c)
             && next !in w.releases
    ensures var t := Run(idleTimeout, steps + [Report(id, true)] + [Tick(wait)] + [Checkout(next, connects)]);
            && (wait <= idleTimeout <==> next in t.guards && t.guards[next].sender == Some(c))
            && (wait > idleTimeout <==> c in t.discarded)
  {
    hide Run, TakeFresh, Conserved, NewestFirst;
    var returned := steps + [Report(id, true)];
    RunKeepsInv(idleTimeout, steps);
    RunOneMore(idleTimeout, steps, Report(id, true));
    RunOneMore(idleTimeout, returned, Tick(wait));
    RunOneMore(idleTimeout, returned + [Tick(wait)], Checkout(next, connects));
    var w := Run(idleTimeout, steps);
    var w' := Run(idleTimeout, returned + [Tick(wait)]);
    assert w'.cache == [CachedConn(c, w.now)] + w.cache && w'.now == w.now + wait;
    var t := Run(idleTimeout, returned + [Tick(wait)] + [Checkout(next, connects)]);
    RunKeepsInv(idleTimeout, returned + [Tick(wait)] + [Checkout(next, connects)]);
    FirstTaken(w'.cache, idleTimeout, w'.now);
    OnlyOnePlace(t, next, c);
  }

  lemma FirstTaken(cache: seq<CachedConn>, idleTimeout: nat, now: nat)
    requires cache != []
    ensures var t := TakeFresh(cache, idleTimeout, now);
            if cache[0].Expired(idleTimeout, now) then cache[0].conn in Conns(t.dropped)
            else t.conn == Some(cache[0].conn) && t.dropped == []
  {
  }

  lemma OnlyOnePlace(w: World, id: nat, c: nat)
    requires Conserved(w)
    ensures !(c in w.discarded && id in w.guards && w.guards[id].sender == Some(c))
  {
  }
}
