/** A group of upstream clients: query orders, ordered fallback, and racing all clients. */
module UpstreamGroup {
  import opened Wrappers
  import opened Dns
  import opened CircuitBreaker
  import opened Rotation
  import opened StableSort

  datatype ErrorKind = NotConnected | TimedOut | OtherKind

  datatype IoError = IoError(kind: ErrorKind, text: string)

  type Reply = Result<Message, IoError>

  /** What becomes of a query to one client: its pool has no connection, time runs out, the exchange
      breaks, or an answer arrives. */
  datatype Attempt = NoConnection | NoReplyInTime | Broken(text: string) | Replied(message: Message)

  /** The reply of a client. An exhausted pool is reported as not connected. */
  function ReplyOf(attempt: Attempt): Reply {
    match attempt
    case NoConnection => Err(IoError(NotConnected, "no available connection in pool"))
    case NoReplyInTime => Err(IoError(TimedOut, "dns timeout"))
    case Broken(text) => Err(IoError(OtherKind, text))
    case Replied(message) => Ok(message)
  }

  /** The group's own error when nobody was tried. */
  const ALL_COOLING := IoError(NotConnected, "all upstreams in cooldown")

  /** The outcome of querying client i, and when it was known. */
  datatype World = World(replies: seq<Reply>, times: seq<nat>)

  predicate Skipped(cooldown: Option<CooldownConfig>, states: seq<BreakerState>, now: nat, idx: nat)
    requires idx < |states|
  {
    cooldown.Some? && states[idx].InCooldown(now)
  }

  /** A client's breaker after its query. */
  function AfterReply(cooldown: Option<CooldownConfig>, state: BreakerState, reply: Reply, at: nat): BreakerState {
    if cooldown.None? then state
    else if reply.Ok? then state.AfterSuccess()
    else state.AfterFailure(cooldown.value, at)
  }

  /** Trying clients in `order` with the errors so far; the breakers are those of the moment. */
  function Fallback(cooldown: Option<CooldownConfig>, now: nat, order: seq<nat>, w: World,
                    states: seq<BreakerState>, firstErr: Option<IoError>): (r: (Reply, seq<BreakerState>))
    requires |w.replies| == |w.times| == |states|
    ensures |r.1| == |states|
  {
    if order == [] then (Err(if firstErr.Some? then firstErr.value else ALL_COOLING), states) else
    var idx := order[0];
    if idx >= |states| || Skipped(cooldown, states, now, idx) then
      Fallback(cooldown, now, order[1..], w, states, firstErr)
    else
      var states' := states[idx := AfterReply(cooldown, states[idx], w.replies[idx], w.times[idx])];
      match w.replies[idx]
      case Ok(message) => (Ok(message), states')
      case Err(e) => Fallback(cooldown, now, order[1..], w, states', if firstErr.None? then Some(e) else firstErr)
  }

  datatype Mode = Serial | Random | RoundRobin | Parallel

  /** What a round-robin query depends on and changes. */
  datatype GroupState = GroupState(cursor: nat, states: seq<BreakerState>)

  /** A round-robin query: fallback from the client under the cursor, which moves on. */
  function RoundRobinQuery(cooldown: Option<CooldownConfig>, s: GroupState, now: nat,
                           w: World): (r: (Reply, GroupState))
    requires |w.replies| == |w.times| == |s.states|
    ensures |r.1.states| == |s.states|
  {
    var n := |s.states|;
    if n == 0 then (Err(ALL_COOLING), s) else
    var (result, after) := Fallback(cooldown, now, Turns(n, s.cursor % n), w, s.states, None);
    (result, GroupState((s.cursor + 1) % WORD, after))
  }

  class Group {
    const mode: Mode
    const cooldown: Option<CooldownConfig>
    const breaker: seq<Breaker>
    var cursor: nat

    ghost predicate Valid()
      reads this
    {
      && (forall i, j :: 0 <= i < j < |breaker| ==> breaker[i] != breaker[j])
      && cursor < WORD
    }

    ghost function States(): (r: seq<BreakerState>)
      reads breaker
      ensures |r| == |breaker|
    {
      seq(|breaker|, i requires 0 <= i < |breaker| reads breaker => breaker[i].State())
    }

    constructor (mode: Mode, n: nat, cooldown: Option<CooldownConfig>)
      ensures Valid() && this.mode == mode && this.cooldown == cooldown && |breaker| == n && cursor == 0
      ensures forall i :: 0 <= i < n ==> fresh(breaker[i]) && breaker[i].State() == BreakerState([], None)
    {
      var bs: seq<Breaker> := [];
      for i := 0 to n
        invariant |bs| == i
        invariant forall k :: 0 <= k < i ==> fresh(bs[k]) && bs[k].State() == BreakerState([], None)
        invariant forall j, k :: 0 <= j < k < i ==> bs[j] != bs[k]
      {
        var b := new Breaker();
        bs := bs + [b];
      }
      this.mode, this.cooldown, breaker, cursor := mode, cooldown, bs, 0;
    }

    /** Client indices in turn; the shared cursor moves on by one and wraps with the machine word. */
    method RoundRobinOrder() returns (order: seq<nat>)
      requires Valid()
      modifies this`cursor
      ensures Valid()
      ensures |breaker| == 0 ==> order == [] && cursor == old(cursor)
      ensures |breaker| > 0 ==> order == Turns(|breaker|, old(cursor) % |breaker|)
                                && order[0] == Chosen(|breaker|, old(cursor), 0)
                                && cursor == (old(cursor) + 1) % WORD
    {
      var n := |breaker|;
      if n == 0 {
        return [];
      }
      var start := cursor % n;
      cursor := (cursor + 1) % WORD;
      order := seq(n, i requires 0 <= i < n => (start + i) % n);
      ModSmall(old(cursor), WORD);
      ModSmall(start, n);
    }

    /** Queries in the configured mode. `order` is the shuffled order of a random query, or the order in which
        the replies of a parallel one come in. */
    method Query(order: seq<nat>, w: World, now: nat) returns (r: Reply)
      requires Valid() && |w.replies| == |w.times| == |breaker|
      requires mode.Parallel? ==> CompletionOf(order, cooldown, States(), now)
      modifies this`cursor, breaker
      ensures Valid()
      ensures mode.RoundRobin? ==>
                (r, GroupState(cursor, States())) ==
                    RoundRobinQuery(cooldown, GroupState(old(cursor), old(States())), now, w)
      ensures !mode.RoundRobin? ==> cursor == old(cursor)
      ensures mode.Serial? ==>
                (r, States()) == Fallback(cooldown, now, Positions(|breaker|), w, old(States()), None)
      ensures mode.Random? || mode.Parallel? ==>
                (r, States()) == Fallback(cooldown, now, order, w, old(States()), None)
    {
      hide Fallback;
      match mode {
        case Serial =>
          r := QueryOrdered(Positions(|breaker|), w, now);
        case Random =>
          r := QueryOrdered(order, w, now);
        case RoundRobin =>
          var turns := RoundRobinOrder();
          NothingToTry(cooldown, now, w, States());
          r := QueryOrdered(turns, w, now);
        case Parallel =>
          r := QueryParallel(order, w, now);
      }
    }

    /** A client's breaker records its reply, unless breakers are off. */
    method RecordReply(idx: nat, reply: Reply, at: nat)
      requires Valid() && idx < |breaker|
      modifies breaker[idx]
      ensures States() == old(States())[idx := AfterReply(cooldown, old(States())[idx], reply, at)]
    {
      if cooldown.Some? {
        if reply.Ok? {
          breaker[idx].RecordSuccess();
        } else {
          breaker[idx].RecordFailure(cooldown.value, at);
        }
      }
    }

    /** Ordered fallback: the first answer wins; breakers record what happened. */
    method QueryOrdered(order: seq<nat>, w: World, now: nat) returns (r: Reply)
      requires Valid() && |w.replies| == |w.times| == |breaker|
      modifies breaker
      ensures Valid()
      ensures (r, States()) == Fallback(cooldown, now, order, w, old(States()), None)
      ensures Orderly(order, w, old(States())) ==>
                FollowsHistories(cooldown, now, order, w, old(States()), r, States())
    {
      hide AfterReply, FollowsHistories;
      FallbackFollowsHistories(cooldown, now, order, w, States());
      var firstErr: Option<IoError> := None;
      var triedAny := false;
      assert order[0..] == order;
      for k := 0 to |order|
        invariant triedAny <==> firstErr.Some?
        invariant Fallback(cooldown, now, order, w, old(States()), None)
               == Fallback(cooldown, now, order[k..], w, States(), firstErr)
      {
        assert order[k..][1..] == order[k + 1..];
        var idx := order[k];
        if idx >= |breaker| {
          continue;
        }
        var cooling := false;
        if cooldown.Some? {
          cooling := breaker[idx].InCooldown(now);
        }
        if cooling {
          continue;
        }
        triedAny := true;
        RecordReply(idx, w.replies[idx], w.times[idx]);
        match w.replies[idx] {
          case Ok(message) =>
            return Ok(message);
          case Err(e) =>
            if firstErr.None? {
              firstErr := Some(e);
            }
        }
      }
      if !triedAny {
        return Err(ALL_COOLING);
      }
      r := Err(firstErr.value);
    }

    /** Racing the clients that are not cooling: replies are taken in the order they come in, and the
        first answer ends the race. */
    method QueryParallel(completion: seq<nat>, w: World, now: nat) returns (r: Reply)
      requires Valid() && |w.replies| == |w.times| == |breaker|
      requires CompletionOf(completion, cooldown, States(), now)
      modifies breaker
      ensures Valid()
      ensures (r, States()) == Fallback(cooldown, now, completion, w, old(States()), None)
      ensures Orderly(completion, w, old(States()))
              && FollowsHistories(cooldown, now, completion, w, old(States()), r, States())
    {
      hide AfterReply, FollowsHistories;
      FallbackFollowsHistories(cooldown, now, completion, w, States());
      if completion == [] {
        return Err(ALL_COOLING);
      }
      var firstErr: Option<IoError> := None;
      assert completion[0..] == completion;
      for k := 0 to |completion|
        invariant k > 0 ==> firstErr.Some?
        invariant CompletionOf(completion, cooldown, old(States()), now)
        invariant forall i :: k <= i < |completion| ==> !Skipped(cooldown, States(), now, completion[i])
        invariant Fallback(cooldown, now, completion, w, old(States()), None)
               == Fallback(cooldown, now, completion[k..], w, States(), firstErr)
      {
        assert completion[k..][1..] == completion[k + 1..];
        var idx := completion[k];
        RecordReply(idx, w.replies[idx], w.times[idx]);
        match w.replies[idx] {
          case Ok(message) =>
            return Ok(message);
          case Err(e) =>
            if firstErr.None? {
              firstErr := Some(e);
            }
        }
      }
      r := Err(firstErr.value);
    }
  }

  // ---------------------------------------------------------------------------
  // What the fallback promises
  // ---------------------------------------------------------------------------

  /** The clients that are not cooling, each once, in the order their replies come in. */
  ghost predicate CompletionOf(completion: seq<nat>, cooldown: Option<CooldownConfig>, states: seq<BreakerState>,
                               now: nat) {
    && NoRepeats(completion)
    && (forall k :: 0 <= k < |completion| ==>
                      completion[k] < |states| && !Skipped(cooldown, states, now, completion[k]))
    && (forall i :: 0 <= i < |states| && !Skipped(cooldown, states, now, i) ==> i in completion)
  }

  ghost predicate NoRepeats(order: seq<nat>) {
    forall i, j :: 0 <= i < j < |order| ==> order[i] != order[j]
  }

  /** The clients of `order` that are not cooling at entry, in order. */
  function Candidates(cooldown: Option<CooldownConfig>, now: nat, order: seq<nat>,
                      states: seq<BreakerState>): (r: seq<nat>)
    requires forall i :: 0 <= i < |order| ==> order[i] < |states|
    ensures forall i :: 0 <= i < |r| ==> r[i] < |states| && r[i] in order
  {
    if order == [] then [] else
    (if Skipped(cooldown, states, now, order[0]) then [] else [order[0]])
    + Candidates(cooldown, now, order[1..], states)
  }

  /** How many candidates are tried: all those before the first that answers, and that one. */
  function Tried(candidates: seq<nat>, w: World): (n: nat)
    requires forall i :: 0 <= i < |candidates| ==> candidates[i] < |w.replies|
    ensures n <= |candidates| && (candidates != [] ==> n > 0)
    ensures forall i :: 0 <= i < n - 1 ==> w.replies[candidates[i]].Err?
    ensures n < |candidates| ==> w.replies[candidates[n - 1]].Ok?
  {
    if candidates == [] then 0
    else if w.replies[candidates[0]].Ok? then 1
    else 1 + Tried(candidates[1..], w)
  }

  /** The result in terms of the candidates alone. */
  function Expected(candidates: seq<nat>, w: World, firstErr: Option<IoError>): Reply
    requires forall i :: 0 <= i < |candidates| ==> candidates[i] < |w.replies|
  {
    var n := Tried(candidates, w);
    if n > 0 && w.replies[candidates[n - 1]].Ok? then w.replies[candidates[n - 1]]
    else if firstErr.Some? then Err(firstErr.value)
    else if n > 0 then w.replies[candidates[0]]
    else Err(ALL_COOLING)
  }

  lemma {:induction false} CandidatesFrame(cooldown: Option<CooldownConfig>, now: nat, order: seq<nat>,
                                           states: seq<BreakerState>, others: seq<BreakerState>)
    requires |states| == |others|
    requires forall i :: 0 <= i < |order| ==> order[i] < |states| && states[order[i]] == others[order[i]]
    ensures Candidates(cooldown, now, order, states) == Candidates(cooldown, now, order, others)
  {
    if order != [] {
      CandidatesFrame(cooldown, now, order[1..], states, others);
    }
  }

  /** The breakers after the clients in `tried` have been queried. */
  ghost predicate Recorded(cooldown: Option<CooldownConfig>, w: World, tried: seq<nat>,
                           states: seq<BreakerState>, after: seq<BreakerState>)
    requires |w.replies| == |w.times| == |states|
  {
    && |after| == |states|
    && forall i :: 0 <= i < |states| ==>
                     after[i] == if i in tried then AfterReply(cooldown, states[i], w.replies[i], w.times[i])
                                 else states[i]
  }

  lemma RecordedStep(cooldown: Option<CooldownConfig>, w: World, idx: nat, tried: seq<nat>,
                     states: seq<BreakerState>, after: seq<BreakerState>)
    requires |w.replies| == |w.times| == |states| && idx < |states| && idx !in tried
    requires Recorded(cooldown, w, tried,
                      states[idx := AfterReply(cooldown, states[idx], w.replies[idx], w.times[idx])], after)
    ensures Recorded(cooldown, w, [idx] + tried, states, after)
  {
    hide AfterReply;
  }

  ghost predicate Orderly(order: seq<nat>, w: World, states: seq<BreakerState>) {
    && |w.replies| == |w.times| == |states|
    && NoRepeats(order) && forall i :: 0 <= i < |order| ==> order[i] < |states|
  }

  /** The outcome in terms of the candidates at entry: the first answer wins, else the first error, else
      nobody was tried; the tried clients' breakers record their replies, all others are untouched. */
  ghost predicate DecidedByCandidates(cooldown: Option<CooldownConfig>, now: nat, order: seq<nat>, w: World,
                                      states: seq<BreakerState>, firstErr: Option<IoError>)
    requires Orderly(order, w, states)
  {
    var candidates := Candidates(cooldown, now, order, states);
    var (result, after) := Fallback(cooldown, now, order, w, states, firstErr);
    && result == Expected(candidates, w, firstErr)
    && Recorded(cooldown, w, candidates[..Tried(candidates, w)], states, after)
  }

  lemma {:induction false} FallbackMeaning(cooldown: Option<CooldownConfig>, now: nat, order: seq<nat>, w: World,
                                           states: seq<BreakerState>, firstErr: Option<IoError>)
    requires Orderly(order, w, states)
    ensures DecidedByCandidates(cooldown, now, order, w, states, firstErr)
    decreases |order|
  {
    hide AfterReply, Recorded, Skipped;
    if order == [] {
      NothingRecorded(cooldown, w, states);
    } else {
      hide DecidedByCandidates;
      var idx, rest := order[0], order[1..];
      RestOfOrder(order, |states|);
      if Skipped(cooldown, states, now, idx) {
        FallbackMeaning(cooldown, now, rest, w, states, firstErr);
        SkippedStep(cooldown, now, order, w, states, firstErr);
      } else if w.replies[idx].Ok? {
        AnswerStep(cooldown, now, order, w, states, firstErr);
      } else {
        var states' := states[idx := AfterReply(cooldown, states[idx], w.replies[idx], w.times[idx])];
        var err := if firstErr.None? then Some(w.replies[idx].error) else firstErr;
        FallbackMeaning(cooldown, now, rest, w, states', err);
        ErrorStep(cooldown, now, order, w, states, firstErr, states', err);
      }
    }
  }

  lemma SkippedStep(cooldown: Option<CooldownConfig>, now: nat, order: seq<nat>, w: World,
                    states: seq<BreakerState>, firstErr: Option<IoError>)
    requires Orderly(order, w, states) && order != [] && Orderly(order[1..], w, states)
    requires Skipped(cooldown, states, now, order[0])
    requires DecidedByCandidates(cooldown, now, order[1..], w, states, firstErr)
    ensures DecidedByCandidates(cooldown, now, order, w, states, firstErr)
  {
    hide AfterReply, Recorded, Skipped;
    assert Candidates(cooldown, now, order, states) == Candidates(cooldown, now, order[1..], states);
  }

  lemma AnswerStep(cooldown: Option<CooldownConfig>, now: nat, order: seq<nat>, w: World,
                   states: seq<BreakerState>, firstErr: Option<IoError>)
    requires Orderly(order, w, states) && order != [] && Orderly(order[1..], w, states)
    requires !Skipped(cooldown, states, now, order[0]) && w.replies[order[0]].Ok?
    ensures DecidedByCandidates(cooldown, now, order, w, states, firstErr)
  {
    hide AfterReply, Recorded, Skipped;
    var idx, candidates := order[0], Candidates(cooldown, now, order, states);
    var states' := states[idx := AfterReply(cooldown, states[idx], w.replies[idx], w.times[idx])];
    assert candidates[..1] == [idx] + [];
    NothingRecorded(cooldown, w, states');
    RecordedStep(cooldown, w, idx, [], states, states');
  }

  lemma CandidateKept(cooldown: Option<CooldownConfig>, now: nat, order: seq<nat>, states: seq<BreakerState>)
    requires order != [] && forall i :: 0 <= i < |order| ==> order[i] < |states|
    requires !Skipped(cooldown, states, now, order[0])
    ensures Candidates(cooldown, now, order, states) == [order[0]] + Candidates(cooldown, now, order[1..], states)
  {
  }

  lemma AfterError(idx: nat, later: seq<nat>, w: World, firstErr: Option<IoError>)
    requires idx < |w.replies| && w.replies[idx].Err?
    requires forall i :: 0 <= i < |later| ==> later[i] < |w.replies|
    ensures Tried([idx] + later, w) == 1 + Tried(later, w)
    ensures Expected([idx] + later, w, firstErr) ==
            Expected(later, w, if firstErr.None? then Some(w.replies[idx].error) else firstErr)
  {
    assert ([idx] + later)[1..] == later;
  }

  lemma FallbackError(cooldown: Option<CooldownConfig>, now: nat, order: seq<nat>, w: World,
                      states: seq<BreakerState>, firstErr: Option<IoError>)
    requires Orderly(order, w, states) && order != []
    requires !Skipped(cooldown, states, now, order[0]) && w.replies[order[0]].Err?
    ensures Fallback(cooldown, now, order, w, states, firstErr) ==
            var idx := order[0];
            Fallback(cooldown, now, order[1..], w,
                     states[idx := AfterReply(cooldown, states[idx], w.replies[idx], w.times[idx])],
                     if firstErr.None? then Some(w.replies[idx].error) else firstErr)
  {
    hide AfterReply, Skipped;
  }

  lemma ErrorStep(cooldown: Option<CooldownConfig>, now: nat, order: seq<nat>, w: World,
                  states: seq<BreakerState>, firstErr: Option<IoError>, states': seq<BreakerState>,
                  err: Option<IoError>)
    requires Orderly(order, w, states) && order != [] && Orderly(order[1..], w, states')
    requires !Skipped(cooldown, states, now, order[0]) && w.replies[order[0]].Err?
    requires var idx := order[0];
             && states' == states[idx := AfterReply(cooldown, states[idx], w.replies[idx], w.times[idx])]
             && err == if firstErr.None? then Some(w.replies[idx].error) else firstErr
    requires DecidedByCandidates(cooldown, now, order[1..], w, states', err)
    ensures DecidedByCandidates(cooldown, now, order, w, states, firstErr)
  {
    hide AfterReply, Recorded, Skipped, Candidates, Tried, Expected, NoRepeats, Fallback;
    var idx, rest := order[0], order[1..];
    RestOfOrder(order, |states|);
    CandidatesFrame(cooldown, now, rest, states, states');
    var later := Candidates(cooldown, now, rest, states);
    var n := Tried(later, w);
    CandidateKept(cooldown, now, order, states);
    AfterError(idx, later, w, firstErr);
    FallbackError(cooldown, now, order, w, states, firstErr);
    PrefixOfCons(idx, later, n);
    RecordedStep(cooldown, w, idx, later[..n], states, Fallback(cooldown, now, rest, w, states', err).1);
  }

  lemma PrefixOfCons(idx: nat, later: seq<nat>, n: nat)
    requires n <= |later|
    ensures ([idx] + later)[..1 + n] == [idx] + later[..n]
  {
  }

  lemma NothingRecorded(cooldown: Option<CooldownConfig>, w: World, states: seq<BreakerState>)
    requires |w.replies| == |w.times| == |states|
    ensures Recorded(cooldown, w, [], states, states)
  {
  }

  lemma RestOfOrder(order: seq<nat>, n: nat)
    requires order != [] && NoRepeats(order) && forall i :: 0 <= i < |order| ==> order[i] < n
    ensures NoRepeats(order[1..]) && order[0] !in order[1..]
    ensures forall i :: 0 <= i < |order[1..]| ==> order[1..][i] < n && order[1..][i] != order[0]
  {
    var rest := order[1..];
    assert forall i :: 0 <= i < |rest| ==> rest[i] == order[i + 1];
  }

  /** The group reports not being connected exactly when no client that was not cooling answers, and
      either there is no such client or the first of them is not connected itself. */
  lemma NotConnectedExactly(cooldown: Option<CooldownConfig>, now: nat, order: seq<nat>, w: World,
                            states: seq<BreakerState>)
    requires Orderly(order, w, states)
    ensures var result := Fallback(cooldown, now, order, w, states, None).0;
            var candidates := Candidates(cooldown, now, order, states);
            result.Err? && result.error.kind == NotConnected <==>
              && (forall i :: 0 <= i < |candidates| ==> w.replies[candidates[i]].Err?)
              && (candidates != [] ==> w.replies[candidates[0]].error.kind == NotConnected)
  {
    hide Fallback, Recorded, Candidates;
    FallbackMeaning(cooldown, now, order, w, states, None);
    ExpectedMeaning(Candidates(cooldown, now, order, states), w);
  }

  /** What the clients reply is what becomes of the attempts to query them. */
  predicate RepliesOf(attempts: seq<Attempt>, w: World) {
    |attempts| == |w.replies| && forall i :: 0 <= i < |attempts| ==> w.replies[i] == ReplyOf(attempts[i])
  }

  /** The same by what becomes of the attempts: nobody answers, and the first candidate, if there is one, finds
      its pool exhausted; running out of time or breaking off first gives another kind of error. */
  lemma NotConnectedByAttempts(cooldown: Option<CooldownConfig>, now: nat, order: seq<nat>, attempts: seq<Attempt>,
                               w: World, states: seq<BreakerState>)
    requires Orderly(order, w, states) && RepliesOf(attempts, w)
    ensures var result := Fallback(cooldown, now, order, w, states, None).0;
            var candidates := Candidates(cooldown, now, order, states);
            result.Err? && result.error.kind == NotConnected <==>
              && (forall i :: 0 <= i < |candidates| ==> !attempts[candidates[i]].Replied?)
              && (candidates != [] ==> attempts[candidates[0]].NoConnection?)
  {
    hide Fallback, Candidates, NoRepeats;
    NotConnectedExactly(cooldown, now, order, w, states);
  }

  lemma ExpectedMeaning(candidates: seq<nat>, w: World)
    requires forall i :: 0 <= i < |candidates| ==> candidates[i] < |w.replies|
    ensures (forall i :: 0 <= i < |candidates| ==> w.replies[candidates[i]].Err?) <==>
        Expected(candidates, w, None).Err?
    ensures Expected(candidates, w, None).Err? ==>
              Expected(candidates, w, None) == if candidates == [] then Err(ALL_COOLING) else w.replies[candidates[0]]
  {
    hide Tried;
  }

  /** Nobody is tried exactly when every client is cooling; the group then says so itself. */
  lemma NobodyTriedExactly(cooldown: Option<CooldownConfig>, now: nat, order: seq<nat>, w: World,
                           states: seq<BreakerState>)
    requires Orderly(order, w, states)
    ensures Candidates(cooldown, now, order, states) == [] <==>
            forall i :: 0 <= i < |order| ==> Skipped(cooldown, states, now, order[i])
    ensures Candidates(cooldown, now, order, states) == [] ==>
              Fallback(cooldown, now, order, w, states, None) == (Err(ALL_COOLING), states)
  {
    hide Fallback, AfterReply;
    FallbackMeaning(cooldown, now, order, w, states, None);
    NoCandidatesExactly(cooldown, now, order, states);
    if Candidates(cooldown, now, order, states) == [] {
      var after := Fallback(cooldown, now, order, w, states, None).1;
      assert Recorded(cooldown, w, [], states, after);
      assert after == states;
    }
  }

  /** A client that is tried and finds its pool exhausted leaves the same kind of error. */
  lemma ExhaustedPoolLooksCooling(now: nat, at: nat, state: BreakerState)
    ensures var w := World([ReplyOf(NoConnection)], [at]);
            && Candidates(None, now, [0], [state]) == [0]
            && Fallback(None, now, [0], w, [state], None).0 == w.replies[0]
            && w.replies[0].error.kind == ALL_COOLING.kind
  {
    var order, states, w := [0], [state], World([ReplyOf(NoConnection)], [at]);
    CandidateKept(None, now, order, states);
    assert order[1..] == [];
    FallbackMeaning(None, now, order, w, states, None);
  }

  lemma {:induction false} NoCandidatesExactly(cooldown: Option<CooldownConfig>, now: nat, order: seq<nat>,
                                               states: seq<BreakerState>)
    requires forall i :: 0 <= i < |order| ==> order[i] < |states|
    ensures Candidates(cooldown, now, order, states) == [] <==>
            forall i :: 0 <= i < |order| ==> Skipped(cooldown, states, now, order[i])
  {
    if order != [] {
      NoCandidatesExactly(cooldown, now, order[1..], states);
      assert forall i :: 1 <= i < |order| ==> order[i] == order[1..][i - 1];
    }
  }

  lemma NothingToTry(cooldown: Option<CooldownConfig>, now: nat, w: World, states: seq<BreakerState>)
    requires |w.replies| == |w.times| == |states|
    ensures Fallback(cooldown, now, [], w, states, None) == (Err(ALL_COOLING), states)
  {
  }

  // ---------------------------------------------------------------------------
  // The outcome by what clients did before
  // ---------------------------------------------------------------------------

  /** Every breaker is as its client's history leaves it. */
  ghost predicate Remembers(cooldown: Option<CooldownConfig>, histories: seq<seq<Event>>, states: seq<BreakerState>) {
    && |histories| == |states|
    && (cooldown.Some? ==> forall i :: 0 <= i < |states| ==> states[i] == After(cooldown.value, histories[i]))
  }

  ghost predicate AllInOrder(histories: seq<seq<Event>>) {
    forall i :: 0 <= i < |histories| ==> CircuitBreaker.InOrder(histories[i])
  }

  /** No failure of the client tripped its breaker less than a cooldown before `now`. */
  ghost predicate Ready(cooldown: Option<CooldownConfig>, histories: seq<seq<Event>>, now: nat, idx: nat)
    requires idx < |histories|
  {
    cooldown.Some? ==> !TrippedRecently(cooldown.value, histories[idx], now)
  }

  /** The ready clients of `order`, in order. */
  ghost function ReadyClients(cooldown: Option<CooldownConfig>, histories: seq<seq<Event>>, now: nat,
                              order: seq<nat>): (r: seq<nat>)
    requires forall i :: 0 <= i < |order| ==> order[i] < |histories|
    ensures forall i :: 0 <= i < |r| ==> r[i] < |histories| && Ready(cooldown, histories, now, r[i])
    ensures forall idx :: idx in order && Ready(cooldown, histories, now, idx) ==> idx in r
  {
    if order == [] then [] else
    (if Ready(cooldown, histories, now, order[0]) then [order[0]] else [])
    + ReadyClients(cooldown, histories, now, order[1..])
  }

  ghost predicate AllFail(clients: seq<nat>, w: World)
    requires forall i :: 0 <= i < |clients| ==> clients[i] < |w.replies|
  {
    forall i :: 0 <= i < |clients| ==> w.replies[clients[i]].Err?
  }

  /** The `k`-th of the clients has its turn: all before it fail. */
  ghost predicate HasTurn(clients: seq<nat>, w: World, k: nat)
    requires k < |clients| && forall i :: 0 <= i < |clients| ==> clients[i] < |w.replies|
  {
    AllFail(clients[..k], w)
  }

  ghost predicate IsTried(clients: seq<nat>, w: World, idx: nat)
    requires forall i :: 0 <= i < |clients| ==> clients[i] < |w.replies|
  {
    exists k :: 0 <= k < |clients| && clients[k] == idx && HasTurn(clients, w, k)
  }

  /** The history of a client that was queried. */
  function Extended(history: seq<Event>, reply: Reply, at: nat): seq<Event> {
    history + [if reply.Ok? then Success(at) else Failure(at)]
  }

  /** The first answer of the ready clients is the result; when all fail, the first error; when there are
      none, the group's own. Exactly the ready clients up to the first that answers add to their histories. */
  ghost predicate DecidedByHistories(cooldown: Option<CooldownConfig>, histories: seq<seq<Event>>, now: nat,
                                     order: seq<nat>, w: World, before: seq<BreakerState>, result: Reply,
                                     after: seq<BreakerState>)
    requires |histories| == |before| && Orderly(order, w, before)
  {
    var ready := ReadyClients(cooldown, histories, now, order);
    && (forall k :: 0 <= k < |ready| && HasTurn(ready, w, k) && w.replies[ready[k]].Ok? ==>
                      result == w.replies[ready[k]])
    && (AllFail(ready, w) ==> result == if ready == [] then Err(ALL_COOLING) else w.replies[ready[0]])
    && |after| == |before|
    && forall i :: 0 <= i < |after| ==>
                     after[i] == if cooldown.Some? && IsTried(ready, w, i)
                                 then After(cooldown.value, Extended(histories[i], w.replies[i], w.times[i]))
                                 else before[i]
  }

  lemma SkippedExactly(cooldown: Option<CooldownConfig>, histories: seq<seq<Event>>, states: seq<BreakerState>,
                       now: nat, idx: nat)
    requires Remembers(cooldown, histories, states) && AllInOrder(histories) && idx < |states|
    ensures Skipped(cooldown, states, now, idx) <==> !Ready(cooldown, histories, now, idx)
  {
    hide After, TrippedRecently, CircuitBreaker.InOrder;
    if cooldown.Some? {
      InCooldownExactly(cooldown.value, histories[idx], now);
    }
  }

  lemma {:induction false} CandidatesAreReady(cooldown: Option<CooldownConfig>, histories: seq<seq<Event>>,
                                              states: seq<BreakerState>, now: nat, order: seq<nat>)
    requires Remembers(cooldown, histories, states) && AllInOrder(histories)
    requires forall i :: 0 <= i < |order| ==> order[i] < |states|
    ensures Candidates(cooldown, now, order, states) == ReadyClients(cooldown, histories, now, order)
  {
    hide Skipped, Ready, Remembers, AllInOrder;
    if order != [] {
      SkippedExactly(cooldown, histories, states, now, order[0]);
      CandidatesAreReady(cooldown, histories, states, now, order[1..]);
    }
  }

  lemma TurnsAreTried(clients: seq<nat>, w: World, k: nat)
    requires k < |clients| && forall i :: 0 <= i < |clients| ==> clients[i] < |w.replies|
    ensures HasTurn(clients, w, k) ==> k < Tried(clients, w)
  {
    hide Tried;
    var n := Tried(clients, w);
    if n <= k {
      assert clients[..k][n - 1] == clients[n - 1];
    }
  }

  /** The clients that are tried are those that have their turn. */
  lemma TriedExactly(clients: seq<nat>, w: World, idx: nat)
    requires forall i :: 0 <= i < |clients| ==> clients[i] < |w.replies|
    ensures idx in clients[..Tried(clients, w)] <==> IsTried(clients, w, idx)
  {
    hide Tried;
    var n := Tried(clients, w);
    if idx in clients[..n] {
      var k :| 0 <= k < n && clients[k] == idx;
      assert HasTurn(clients, w, k);
    }
    if IsTried(clients, w, idx) {
      var k :| 0 <= k < |clients| && clients[k] == idx && HasTurn(clients, w, k);
      TurnsAreTried(clients, w, k);
      assert clients[..n][k] == idx;
    }
  }

  lemma ReplyExtends(cooldown: Option<CooldownConfig>, history: seq<Event>, state: BreakerState, reply: Reply, at: nat)
    requires cooldown.Some? ==> state == After(cooldown.value, history)
    ensures AfterReply(cooldown, state, reply, at) ==
            if cooldown.Some? then After(cooldown.value, Extended(history, reply, at)) else state
  {
    assert Extended(history, reply, at)[..|history|] == history;
  }

  lemma ExpectedExactly(clients: seq<nat>, w: World)
    requires forall i :: 0 <= i < |clients| ==> clients[i] < |w.replies|
    ensures forall k :: 0 <= k < |clients| && HasTurn(clients, w, k) && w.replies[clients[k]].Ok? ==>
                          Expected(clients, w, None) == w.replies[clients[k]]
    ensures AllFail(clients, w) ==>
              Expected(clients, w, None) == if clients == [] then Err(ALL_COOLING) else w.replies[clients[0]]
  {
    hide Tried;
    var n := Tried(clients, w);
    forall k | 0 <= k < |clients| && HasTurn(clients, w, k) && w.replies[clients[k]].Ok?
      ensures Expected(clients, w, None) == w.replies[clients[k]]
    {
      TurnsAreTried(clients, w, k);
      assert k == n - 1;
    }
  }

  /** Ordered fallback by what the clients did before: only those are tried that no failure tripped less
      than a cooldown ago. */
  lemma FallbackByHistories(cooldown: Option<CooldownConfig>, histories: seq<seq<Event>>, now: nat,
                            order: seq<nat>, w: World, states: seq<BreakerState>)
    requires Remembers(cooldown, histories, states) && AllInOrder(histories) && Orderly(order, w, states)
    ensures var (result, after) := Fallback(cooldown, now, order, w, states, None);
            DecidedByHistories(cooldown, histories, now, order, w, states, result, after)
  {
    hide Fallback, Candidates, ReadyClients, Expected, Tried, AfterReply, IsTried, HasTurn, AllFail, After, AllInOrder;
    hide Extended;
    var ready := ReadyClients(cooldown, histories, now, order);
    var (result, after) := Fallback(cooldown, now, order, w, states, None);
    FallbackMeaning(cooldown, now, order, w, states, None);
    CandidatesAreReady(cooldown, histories, states, now, order);
    ExpectedExactly(ready, w);
    forall i | 0 <= i < |after|
      ensures after[i] == if cooldown.Some? && IsTried(ready, w, i)
                          then After(cooldown.value, Extended(histories[i], w.replies[i], w.times[i]))
                          else states[i]
    {
      TriedExactly(ready, w, i);
      ReplyExtends(cooldown, histories[i], states[i], w.replies[i], w.times[i]);
    }
  }

  /** Whatever histories have left the breakers as they were before, they decide the outcome. */
  ghost predicate FollowsHistories(cooldown: Option<CooldownConfig>, now: nat, order: seq<nat>, w: World,
                                   before: seq<BreakerState>, result: Reply, after: seq<BreakerState>)
    requires Orderly(order, w, before)
  {
    forall histories | Remembers(cooldown, histories, before) && AllInOrder(histories) ::
      DecidedByHistories(cooldown, histories, now, order, w, before, result, after)
  }

  lemma FallbackFollowsHistories(cooldown: Option<CooldownConfig>, now: nat, order: seq<nat>, w: World,
                                 states: seq<BreakerState>)
    ensures Orderly(order, w, states) ==>
              var (result, after) := Fallback(cooldown, now, order, w, states, None);
              FollowsHistories(cooldown, now, order, w, states, result, after)
  {
    hide Fallback, DecidedByHistories, AllInOrder, NoRepeats;
    if Orderly(order, w, states) {
      forall histories | Remembers(cooldown, histories, states) && AllInOrder(histories)
        ensures var (result, after) := Fallback(cooldown, now, order, w, states, None);
                DecidedByHistories(cooldown, histories, now, order, w, states, result, after)
      {
        FallbackByHistories(cooldown, histories, now, order, w, states);
      }
    }
  }

  /** A client without a recorded failure that is first in order is tried first. */
  lemma FirstWithoutFailureIsTried(cooldown: Option<CooldownConfig>, histories: seq<seq<Event>>, now: nat,
                                   order: seq<nat>, w: World, states: seq<BreakerState>)
    requires Remembers(cooldown, histories, states) && AllInOrder(histories) && Orderly(order, w, states)
    requires order != [] && forall e <- histories[order[0]] :: e.Success?
    ensures var (result, after) := Fallback(cooldown, now, order, w, states, None);
            var reply, at := w.replies[order[0]], w.times[order[0]];
            && (reply.Ok? ==> result == reply)
            && (cooldown.Some? ==>
                  after[order[0]] == After(cooldown.value, Extended(histories[order[0]], reply, at)))
  {
    hide Fallback, After, Extended, Ready, Remembers, AllInOrder;
    HasHistories(cooldown, histories, states);
    var ready := ReadyClients(cooldown, histories, now, order);
    FallbackByHistories(cooldown, histories, now, order, w, states);
    NoFailureIsReady(cooldown, histories, now, order[0]);
    assert ready[0] == order[0];
    assert HasTurn(ready, w, 0);
  }

  lemma NoFailureIsReady(cooldown: Option<CooldownConfig>, histories: seq<seq<Event>>, now: nat, idx: nat)
    requires idx < |histories| && forall e <- histories[idx] :: e.Success?
    ensures Ready(cooldown, histories, now, idx)
  {
    hide Counted;
    assert forall k :: 0 <= k < |histories[idx]| ==> histories[idx][k] in histories[idx];
  }

  /** The clients that race are exactly the ready ones, each once. */
  lemma RaceIsReadyExactly(cooldown: Option<CooldownConfig>, histories: seq<seq<Event>>, now: nat,
                           completion: seq<nat>, states: seq<BreakerState>)
    requires Remembers(cooldown, histories, states) && AllInOrder(histories)
    ensures CompletionOf(completion, cooldown, states, now) <==>
              && NoRepeats(completion)
              && (forall idx <- completion :: idx < |histories|)
              && forall idx :: 0 <= idx < |histories| ==>
                                 (idx in completion <==> Ready(cooldown, histories, now, idx))
  {
    hide Remembers, Ready, Skipped, AllInOrder, NoRepeats;
    HasHistories(cooldown, histories, states);
    forall idx: nat | idx < |states|
      ensures Skipped(cooldown, states, now, idx) <==> !Ready(cooldown, histories, now, idx)
    {
      SkippedExactly(cooldown, histories, states, now, idx);
    }
    if forall idx <- completion :: idx < |histories| {
      assert forall k :: 0 <= k < |completion| ==> completion[k] in completion;
    }
  }

  lemma HasHistories(cooldown: Option<CooldownConfig>, histories: seq<seq<Event>>, states: seq<BreakerState>)
    requires Remembers(cooldown, histories, states)
    ensures |states| == |histories|
  {
  }

  // ---------------------------------------------------------------------------
  // Series of round-robin queries
  // ---------------------------------------------------------------------------

  datatype Ask = Ask(now: nat, w: World)

  /** Every query has a reply for every one of the `n` clients. */
  predicate AllAsked(asks: seq<Ask>, n: nat) {
    forall q :: 0 <= q < |asks| ==> |asks[q].w.replies| == |asks[q].w.times| == n
  }

  /** The group before query `q` of a series. */
  function StateAt(cooldown: Option<CooldownConfig>, s: GroupState, asks: seq<Ask>, q: nat): (r: GroupState)
    requires q <= |asks| && AllAsked(asks, |s.states|)
    ensures |r.states| == |s.states|
  {
    if q == 0 then s else
    RoundRobinQuery(cooldown, StateAt(cooldown, s, asks, q - 1), asks[q - 1].now, asks[q - 1].w).1
  }

  function ResultAt(cooldown: Option<CooldownConfig>, s: GroupState, asks: seq<Ask>, q: nat): Reply
    requires q < |asks| && AllAsked(asks, |s.states|)
  {
    RoundRobinQuery(cooldown, StateAt(cooldown, s, asks, q), asks[q].now, asks[q].w).0
  }

  /** The order in which query `q` of a series tries the clients. */
  function OrderAt(cooldown: Option<CooldownConfig>, s: GroupState, asks: seq<Ask>, q: nat): (order: seq<nat>)
    requires q < |asks| && AllAsked(asks, |s.states|) && s.states != []
    ensures |order| == |s.states|
  {
    Turns(|s.states|, StateAt(cooldown, s, asks, q).cursor % |s.states|)
  }

  /** The cursor counts queries, whatever happens in them. */
  lemma {:induction false} CursorAt(cooldown: Option<CooldownConfig>, s: GroupState, asks: seq<Ask>, q: nat)
    requires q <= |asks| && AllAsked(asks, |s.states|) && s.states != [] && s.cursor < WORD
    ensures StateAt(cooldown, s, asks, q).cursor == (s.cursor + q) % WORD
  {
    hide StateAt;
    CursorMoves(cooldown, s, asks, q);
    if q > 0 {
      CursorAt(cooldown, s, asks, q - 1);
      NextMod(s.cursor + q - 1, WORD);
    } else {
      ModSmall(s.cursor, WORD);
    }
  }

  lemma CursorMoves(cooldown: Option<CooldownConfig>, s: GroupState, asks: seq<Ask>, q: nat)
    requires q <= |asks| && AllAsked(asks, |s.states|) && s.states != []
    ensures StateAt(cooldown, s, asks, q).cursor ==
            if q == 0 then s.cursor else (StateAt(cooldown, s, asks, q - 1).cursor + 1) % WORD
  {
    hide Fallback, Turns;
  }

  lemma FirstAt(cooldown: Option<CooldownConfig>, s: GroupState, asks: seq<Ask>, q: nat)
    requires q < |asks| && AllAsked(asks, |s.states|) && s.states != [] && s.cursor < WORD
    ensures OrderAt(cooldown, s, asks, q)[0] == Chosen(|s.states|, s.cursor, q)
  {
    CursorAt(cooldown, s, asks, q);
    ModSmall(StateAt(cooldown, s, asks, q).cursor % |s.states|, |s.states|);
  }

  /** Query `q` of a series asks client `j` first, and no other query does. */
  ghost predicate FirstOnce(cooldown: Option<CooldownConfig>, s: GroupState, asks: seq<Ask>, j: nat)
    requires AllAsked(asks, |s.states|) && s.states != []
  {
    exists q :: 0 <= q < |asks| && FirstOnlyAt(cooldown, s, asks, q, j)
  }

  ghost predicate FirstOnlyAt(cooldown: Option<CooldownConfig>, s: GroupState, asks: seq<Ask>, q: nat, j: nat)
    requires q < |asks| && AllAsked(asks, |s.states|) && s.states != []
  {
    && OrderAt(cooldown, s, asks, q)[0] == j
    && forall p :: 0 <= p < |asks| && OrderAt(cooldown, s, asks, p)[0] == j ==> p == q
  }

  /** In any n consecutive round-robin queries, whatever is answered, each of the n clients is tried first
      exactly once: if and only if the cursor does not wrap meanwhile or n divides the word size. */
  lemma RoundRobinIsFairExactly(cooldown: Option<CooldownConfig>, s: GroupState, asks: seq<Ask>)
    requires |asks| == |s.states| && AllAsked(asks, |s.states|) && 0 < |s.states| <= WORD && s.cursor < WORD
    ensures (forall j :: 0 <= j < |s.states| ==> FirstOnce(cooldown, s, asks, j)) <==>
            s.cursor + |s.states| <= WORD || WORD % |s.states| == 0
  {
    hide OrderAt, Chosen, Fair;
    var n := |s.states|;
    forall q | 0 <= q < n ensures OrderAt(cooldown, s, asks, q)[0] == Chosen(n, s.cursor, q) {
      FirstAt(cooldown, s, asks, q);
    }
    FairExactly(n, s.cursor);
    forall j | 0 <= j < n ensures FirstOnce(cooldown, s, asks, j) <==> Served(n, s.cursor, j) {
      FirstIsServed(cooldown, s, asks, j);
    }
    FairMeans(n, s.cursor);
  }

  lemma FairMeans(n: nat, cursor: nat)
    requires n > 0
    ensures Fair(n, cursor) <==> forall j :: 0 <= j < n ==> Served(n, cursor, j)
  {
    hide Served;
  }

  lemma FirstIsServed(cooldown: Option<CooldownConfig>, s: GroupState, asks: seq<Ask>, j: nat)
    requires |asks| == |s.states| && AllAsked(asks, |s.states|) && s.states != [] && j < |s.states|
    requires forall q :: 0 <= q < |asks| ==> OrderAt(cooldown, s, asks, q)[0] == Chosen(|s.states|, s.cursor, q)
    ensures FirstOnce(cooldown, s, asks, j) <==> Served(|s.states|, s.cursor, j)
  {
    hide OrderAt, Chosen;
    if FirstOnce(cooldown, s, asks, j) {
      var q :| 0 <= q < |asks| && FirstOnlyAt(cooldown, s, asks, q, j);
      assert OnlyAt(|s.states|, s.cursor, q);
    }
    if Served(|s.states|, s.cursor, j) {
      var q :| 0 <= q < |s.states| && Chosen(|s.states|, s.cursor, q) == j && OnlyAt(|s.states|, s.cursor, q);
      assert FirstOnlyAt(cooldown, s, asks, q, j);
    }
  }

  /** Every query of a series is decided by the clients that are not cooling, in round-robin order. */
  lemma RoundRobinIsFallback(cooldown: Option<CooldownConfig>, s: GroupState, asks: seq<Ask>, q: nat)
    requires q < |asks| && AllAsked(asks, |s.states|) && s.states != []
    ensures var before, order := StateAt(cooldown, s, asks, q), OrderAt(cooldown, s, asks, q);
            && Orderly(order, asks[q].w, before.states)
            && DecidedByCandidates(cooldown, asks[q].now, order, asks[q].w, before.states, None)
            && ResultAt(cooldown, s, asks, q) ==
                Fallback(cooldown, asks[q].now, order, asks[q].w, before.states, None).0
  {
    hide DecidedByCandidates, Fallback, StateAt, Turns;
    var before := StateAt(cooldown, s, asks, q);
    TurnsAreOrders(|s.states|, before.cursor % |s.states|);
    FallbackMeaning(cooldown, asks[q].now, OrderAt(cooldown, s, asks, q), asks[q].w, before.states, None);
  }

  /** A client that is not cooling and answers serves the query it is first in. */
  lemma FirstClientServes(cooldown: Option<CooldownConfig>, s: GroupState, asks: seq<Ask>, q: nat)
    requires q < |asks| && AllAsked(asks, |s.states|) && s.states != [] && s.cursor < WORD
    requires var before, j := StateAt(cooldown, s, asks, q), Chosen(|s.states|, s.cursor, q);
             !Skipped(cooldown, before.states, asks[q].now, j) && asks[q].w.replies[j].Ok?
    ensures ResultAt(cooldown, s, asks, q) == asks[q].w.replies[Chosen(|s.states|, s.cursor, q)]
  {
    hide Chosen, StateAt, Skipped, Turns;
    FirstAt(cooldown, s, asks, q);
  }

  /** Round-robin orders are permutations of the clients. */
  lemma TurnsAreOrders(n: nat, start: nat)
    requires n > 0
    ensures NoRepeats(Turns(n, start)) && forall i :: 0 <= i < n ==> Turns(n, start)[i] < n
  {
    TurnsCoverOnce(n, start, 0);
  }
}
