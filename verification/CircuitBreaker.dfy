/** The sliding-window circuit breaker that keeps failing clients out of use for a while. */
module CircuitBreaker {
  import opened Wrappers

  datatype CooldownConfig = CooldownConfig(threshold: nat, window: nat, cooldown: nat)

  /** The error count is compared as a 32-bit number. */
  const COUNT_LIMIT: nat := 0x1_0000_0000

  /** Time from `t` to `now`, zero when `t` lies ahead. */
  function Since(now: nat, t: nat): nat {
    if now >= t then now - t else 0
  }

  function DropOld(errors: seq<nat>, window: nat, now: nat): seq<nat> {
    if errors != [] && Since(now, errors[0]) > window then DropOld(errors[1..], window, now) else errors
  }

  datatype BreakerState = BreakerState(errors: seq<nat>, coolUntil: Option<nat>)
  {
    predicate InCooldown(now: nat) {
      coolUntil.Some? && coolUntil.value > now
    }

    function AfterFailure(cfg: CooldownConfig, now: nat): BreakerState {
      var kept := DropOld(errors, cfg.window, now) + [now];
      BreakerState(kept, if |kept| % COUNT_LIMIT >= cfg.threshold then Some(now + cfg.cooldown) else coolUntil)
    }

    function AfterSuccess(): BreakerState {
      BreakerState([], coolUntil)
    }
  }

  class Breaker {
    var errors: seq<nat>
    var coolUntil: Option<nat>

    function State(): BreakerState
      reads this
    {
      BreakerState(errors, coolUntil)
    }

    constructor ()
      ensures State() == BreakerState([], None)
    {
      errors, coolUntil := [], None;
    }

    method InCooldown(now: nat) returns (r: bool)
      ensures r == State().InCooldown(now)
    {
      r := coolUntil.Some? && coolUntil.value > now;
    }

    method RecordFailure(cfg: CooldownConfig, now: nat)
      modifies this
      ensures State() == old(State()).AfterFailure(cfg, now)
    {
      while errors != [] && Since(now, errors[0]) > cfg.window
        invariant DropOld(errors, cfg.window, now) == DropOld(old(errors), cfg.window, now)
        invariant coolUntil == old(coolUntil)
        decreases |errors|
      {
        errors := errors[1..];
      }
      errors := errors + [now];
      if |errors| % COUNT_LIMIT >= cfg.threshold {
        coolUntil := Some(now + cfg.cooldown);
      }
    }

    method RecordSuccess()
      modifies this
      ensures State() == old(State()).AfterSuccess()
    {
      errors := [];
    }
  }

  // ---------------------------------------------------------------------------
  // Runs
  // ---------------------------------------------------------------------------

  datatype Event = Failure(at: nat) | Success(at: nat)

  ghost predicate InOrder(history: seq<Event>) {
    forall i, j :: 0 <= i < j < |history| ==> history[i].at <= history[j].at
  }

  function After(cfg: CooldownConfig, history: seq<Event>): BreakerState {
    if history == [] then BreakerState([], None) else
    var before := After(cfg, history[..|history| - 1]);
    match history[|history| - 1]
    case Failure(at) => before.AfterFailure(cfg, at)
    case Success(_) => before.AfterSuccess()
  }

  /** Times of the failures since the last success. */
  function SinceSuccess(history: seq<Event>): seq<nat> {
    if history == [] then [] else
    match history[|history| - 1]
    case Failure(at) => SinceSuccess(history[..|history| - 1]) + [at]
    case Success(_) => []
  }

  /** The times within `window` of `f`. */
  function InWindow(times: seq<nat>, window: nat, f: nat): seq<nat> {
    if times == [] then [] else
    var n := |times| - 1;
    InWindow(times[..n], window, f) + if f <= times[n] + window then [times[n]] else []
  }

  /** The failures that count at the last failure of `history`. */
  function Counted(cfg: CooldownConfig, history: seq<Event>): seq<nat> {
    var times := SinceSuccess(history);
    if times == [] then [] else InWindow(times, cfg.window, times[|times| - 1])
  }

  ghost predicate Sorted(times: seq<nat>) {
    forall i, j :: 0 <= i < j < |times| ==> times[i] <= times[j]
  }

  lemma {:induction false} SinceSuccessTimes(history: seq<Event>)
    requires InOrder(history)
    ensures Sorted(SinceSuccess(history))
    ensures forall i, k :: 0 <= i < |SinceSuccess(history)| && k == |history| - 1 ==>
                             SinceSuccess(history)[i] <= history[k].at
  {
    if history != [] && history[|history| - 1].Failure? {
      var before := history[..|history| - 1];
      SinceSuccessTimes(before);
      if before != [] {
        assert before[|before| - 1].at <= history[|history| - 1].at;
      }
    }
  }

  /** Dropping old times from the front of a sorted list keeps exactly those within the window. */
  lemma {:induction false} DropOldIsWindow(times: seq<nat>, window: nat, f: nat)
    requires Sorted(times)
    ensures DropOld(times, window, f) == InWindow(times, window, f)
  {
    if times != [] {
      if Since(f, times[0]) > window {
        DropOldIsWindow(times[1..], window, f);
        InWindowFront(times, window, f);
      } else {
        AllInWindow(times, window, f);
      }
    }
  }

  lemma {:induction false} InWindowFront(times: seq<nat>, window: nat, f: nat)
    requires times != [] && Since(f, times[0]) > window
    ensures InWindow(times, window, f) == InWindow(times[1..], window, f)
  {
    var n := |times| - 1;
    if n > 0 {
      InWindowFront(times[..n], window, f);
      assert times[..n][1..] == times[1..][..n - 1];
    }
  }

  lemma {:induction false} AllInWindow(times: seq<nat>, window: nat, f: nat)
    requires forall i :: 0 <= i < |times| ==> Since(f, times[i]) <= window
    ensures InWindow(times, window, f) == times
  {
    if times != [] {
      AllInWindow(times[..|times| - 1], window, f);
    }
  }

  /** A later failure only narrows the window. */
  lemma {:induction false} WindowNarrows(times: seq<nat>, window: nat, f: nat, g: nat)
    requires f <= g && forall i :: 0 <= i < |times| ==> times[i] <= f
    ensures InWindow(InWindow(times, window, f), window, g) == InWindow(times, window, g)
  {
    if times != [] {
      var n := |times| - 1;
      var inner := InWindow(times[..n], window, f);
      WindowNarrows(times[..n], window, f, g);
      InWindowStep(inner, times[n], window, g);
      assert inner + [] == inner;
    }
  }

  lemma InWindowStep(times: seq<nat>, t: nat, window: nat, g: nat)
    ensures InWindow(times + [t], window, g) == InWindow(times, window, g) + if g <= t + window then [t] else []
  {
    assert (times + [t])[..|times|] == times;
  }

  lemma {:induction false} InWindowSorted(times: seq<nat>, window: nat, f: nat)
    requires Sorted(times)
    ensures Sorted(InWindow(times, window, f))
    ensures forall i :: 0 <= i < |InWindow(times, window, f)| ==>
                          times != [] && InWindow(times, window, f)[i] <= times[|times| - 1]
  {
    if times != [] {
      var n := |times| - 1;
      InWindowSorted(times[..n], window, f);
      if n > 0 {
        assert times[..n][n - 1] <= times[n];
      }
    }
  }

  /** The list of errors is exactly the failures since the last success that lay within the window
      when the last of them happened. */
  lemma {:induction false} ErrorsAreCounted(cfg: CooldownConfig, history: seq<Event>)
    requires InOrder(history)
    ensures After(cfg, history).errors == Counted(cfg, history)
  {
    hide DropOld;
    if history != [] && history[|history| - 1].Failure? {
      var before, g := history[..|history| - 1], history[|history| - 1].at;
      var times := SinceSuccess(before);
      ErrorsAreCounted(cfg, before);
      SinceSuccessTimes(before);
      SinceSuccessTimes(history);
      assert SinceSuccess(history)[..|times|] == times;
      if times == [] {
        DropOldIsWindow([], cfg.window, g);
      } else {
        var f := times[|times| - 1];
        assert SinceSuccess(history)[|times| - 1] == f;
        WindowNarrows(times, cfg.window, f, g);
        InWindowSorted(times, cfg.window, f);
        DropOldIsWindow(InWindow(times, cfg.window, f), cfg.window, g);
      }
    }
  }

  /** The failure at position `k` trips the breaker. */
  ghost predicate Trips(cfg: CooldownConfig, history: seq<Event>, k: nat)
    requires k < |history|
  {
    history[k].Failure? && |Counted(cfg, history[..k + 1])| % COUNT_LIMIT >= cfg.threshold
  }

  /** Some failure tripped the breaker less than a cooldown before `t`. */
  ghost predicate TrippedRecently(cfg: CooldownConfig, history: seq<Event>, t: nat) {
    exists k :: 0 <= k < |history| && Trips(cfg, history, k) && t < history[k].at + cfg.cooldown
  }

  /** A client is skipped at `t` exactly when some failure tripped the breaker less than a cooldown before. */
  lemma {:induction false} InCooldownExactly(cfg: CooldownConfig, history: seq<Event>, t: nat)
    requires InOrder(history)
    ensures After(cfg, history).InCooldown(t) <==> TrippedRecently(cfg, history, t)
  {
    hide DropOld, Counted;
    if history != [] {
      var n := |history| - 1;
      var before, last := history[..n], history[n];
      InCooldownExactly(cfg, before, t);
      ErrorsAreCounted(cfg, history);
      assert history[..n + 1] == history;
      forall k | 0 <= k < n ensures Trips(cfg, history, k) <==> Trips(cfg, before, k) {
        assert before[..k + 1] == history[..k + 1];
      }
      if Trips(cfg, history, n) {
        assert After(cfg, history).coolUntil == Some(last.at + cfg.cooldown);
        forall k | 0 <= k < n ensures history[k].at <= last.at {
        }
      } else {
        assert After(cfg, history).coolUntil == After(cfg, before).coolUntil;
        if After(cfg, before).InCooldown(t) {
          var k :| 0 <= k < n && Trips(cfg, before, k) && t < before[k].at + cfg.cooldown;
          assert Trips(cfg, history, k);
        }
      }
    }
  }

  /** Whatever happens next, a running cooldown is never cut short; a success does not extend it either. */
  lemma CooldownNeverShortened(cfg: CooldownConfig, history: seq<Event>, next: Event, t: nat)
    requires InOrder(history + [next])
    ensures After(cfg, history).InCooldown(t) ==> After(cfg, history + [next]).InCooldown(t)
    ensures next.Success? ==> (After(cfg, history + [next]).InCooldown(t) ==> After(cfg, history).InCooldown(t))
  {
    hide After, Trips, BreakerState.InCooldown;
    var all := history + [next];
    InOrderPrefix(history, next);
    InCooldownExactly(cfg, history, t);
    InCooldownExactly(cfg, all, t);
    if After(cfg, history).InCooldown(t) {
      var k :| 0 <= k < |history| && Trips(cfg, history, k) && t < history[k].at + cfg.cooldown;
      TripsPrefix(cfg, history, next, k);
      assert t < all[k].at + cfg.cooldown;
    }
    if next.Success? && After(cfg, all).InCooldown(t) {
      var k :| 0 <= k < |all| && Trips(cfg, all, k) && t < all[k].at + cfg.cooldown;
      SuccessDoesNotTrip(cfg, history, next);
      TripsPrefix(cfg, history, next, k);
      assert t < history[k].at + cfg.cooldown;
    }
  }

  lemma InOrderPrefix(history: seq<Event>, next: Event)
    requires InOrder(history + [next])
    ensures InOrder(history)
  {
    var all := history + [next];
    forall i, j | 0 <= i < j < |history| ensures history[i].at <= history[j].at {
      assert all[i].at <= all[j].at;
    }
  }

  lemma TripsPrefix(cfg: CooldownConfig, history: seq<Event>, next: Event, k: nat)
    requires k < |history|
    ensures Trips(cfg, history, k) <==> Trips(cfg, history + [next], k)
  {
    assert (history + [next])[..k + 1] == history[..k + 1];
  }

  lemma SuccessDoesNotTrip(cfg: CooldownConfig, history: seq<Event>, next: Event)
    requires next.Success?
    ensures !Trips(cfg, history + [next], |history|)
  {
  }

  /** While fewer than 2^32 failures are counted, tripping needs `threshold` of them, neither more nor less. */
  lemma {:induction false} TripsAtThreshold(cfg: CooldownConfig, history: seq<Event>, k: nat)
    requires k < |history| < COUNT_LIMIT
    ensures Trips(cfg, history, k) <==>
            history[k].Failure? && |Counted(cfg, history[..k + 1])| >= cfg.threshold
  {
    CountedSize(cfg, history[..k + 1]);
  }

  lemma {:induction false} CountedSize(cfg: CooldownConfig, history: seq<Event>)
    ensures |SinceSuccess(history)| <= |history|
    ensures |Counted(cfg, history)| <= |history|
  {
    SinceSuccessSize(history);
    var times := SinceSuccess(history);
    if times != [] {
      InWindowSize(times, cfg.window, times[|times| - 1]);
    }
  }

  lemma {:induction false} SinceSuccessSize(history: seq<Event>)
    ensures |SinceSuccess(history)| <= |history|
  {
    if history != [] {
      SinceSuccessSize(history[..|history| - 1]);
    }
  }

  lemma {:induction false} InWindowSize(times: seq<nat>, window: nat, f: nat)
    ensures |InWindow(times, window, f)| <= |times|
  {
    if times != [] {
      InWindowSize(times[..|times| - 1], window, f);
    }
  }
}
