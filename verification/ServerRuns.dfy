/**
 Whole runs of the server, any number of queries being answered at once. Every such run is a
 run of the query cache, so what holds of cache runs holds of the answers clients receive.
*/
module ServerRuns {
  import opened Wrappers
  import opened Dns
  import opened Query
  import opened CacheRecords
  import opened QueryCache
  import opened RuleActions
  import opened Pipeline
  import CacheRuns
  import opened RuleSelection
  import CnameChain
  import Hosts
  import Balance
  import opened Text

  datatype Step =
    | Tick(duration: nat)
    | Evict(key: CacheKey)
    | Ask(id: nat, msg: Message, env: Env)
    | Settle(id: nat)
    | Drop(id: nat)

  /** Replies that are not written back yet are pending. */
  datatype State = State(now: nat, slots: Slots, pending: map<nat, Reply>)

  const INITIAL: State := State(0, map[], map[])

  ghost function Apply(st: Stages, s: State, step: Step): State
    requires st.Valid()
  {
    match step
    case Tick(d) => s.(now := s.now + d)
    case Evict(key) => s.(slots := s.slots - {key})
    case Ask(id, msg, env) =>
      if msg.queries == [] then s else s.(pending := s.pending[id := ReplyTo(st, s.slots, s.now, env, msg)])
    case Settle(id) =>
      if id !in s.pending then s else
      s.(slots := Settled(st, s.slots, s.pending[id], s.now), pending := s.pending - {id})
    case Drop(id) => s.(pending := s.pending - {id})
  }

  ghost function Run(st: Stages, steps: seq<Step>): State
    requires st.Valid()
  {
    if steps == [] then INITIAL else Apply(st, Run(st, steps[..|steps| - 1]), steps[|steps| - 1])
  }

  // ---------------------------------------------------------------------------
  // A reply rearranges what was found
  // ---------------------------------------------------------------------------

  lemma BalancingRearranges(s: Balance.Settings, skip: bool, qtype: RecordType, answers: seq<Record>,
                            first: Balance.Draw, second: Balance.Draw)
    requires Balance.AllValid(s.cidrs)
    ensures var after := Balance.BalancedAnswers(s, skip, qtype, answers, first, second);
            (answers != [] ==> after != []) && forall i :: 0 <= i < |after| ==> after[i] in answers
  {
    hide Balance.Passed;
    var families := Balance.FamiliesOf(qtype);
    var after := Balance.BalancedAnswers(s, skip, qtype, answers, first, second);
    if families.Some? {
      var all := Balance.TwoPasses(s, families.value, answers, first, second);
      Balance.TwoPassesPermute(s, families.value, answers, first, second);
      forall i | 0 <= i < |after| ensures after[i] in answers {
        assert after[i] in answers || after[i] == all[i];
        assert all[i] in multiset(all) || after[i] in answers;
      }
    }
  }

  /** The outgoing response keeps each answer's data and TTL, and the response code. */
  lemma ReplyRearranges(st: Stages, slots: Slots, now: nat, env: Env, msg: Message)
    requires st.Valid() && msg.queries != []
    ensures var f := FoundAnswer(st, slots, now, env.up, msg, KeyOf(st, msg.queries[0]));
            var reply := ReplyTo(st, slots, now, env, msg);
            && CacheRuns.Rebalanced(f.response.answers, reply.response.answers)
            && reply.response.rcode == f.response.rcode
  {
    hide FoundAnswer, Balance.BalancedAnswers, Restored, KeyOf;
    var f := FoundAnswer(st, slots, now, env.up, msg, KeyOf(st, msg.queries[0]));
    BalancingRearranges(st.settings, f.skipBalance, f.key.qtype, f.response.answers, env.first, env.second);
    var balanced := Balanced(st, env, f.response, f.key.qtype, f.skipBalance);
    RestoringRenames(st, balanced, f.original);
    RenamedIsRebalanced(f.response.answers, balanced.answers, Restored(st, balanced, f.original).answers);
  }

  lemma RestoringRenames(st: Stages, response: Message, original: Option<string>)
    ensures var r := Restored(st, response, original);
            Renames(response.answers, r.answers) && r.rcode == response.rcode
  {
  }

  /** Only owners differ. */
  ghost predicate Renames(before: seq<Record>, after: seq<Record>) {
    |after| == |before| &&
    forall i :: 0 <= i < |after| ==> CacheRuns.SameButOwner(after[i], before[i])
  }

  lemma RenamedIsRebalanced(found: seq<Record>, before: seq<Record>, after: seq<Record>)
    requires (found != [] ==> before != []) && forall i :: 0 <= i < |before| ==> before[i] in found
    requires Renames(before, after)
    ensures CacheRuns.Rebalanced(found, after)
  {
    forall i | 0 <= i < |after| ensures CacheRuns.Among(after[i], found) {
      assert before[i] in found;
      var j :| 0 <= j < |found| && found[j] == before[i];
      assert CacheRuns.SameButOwner(after[i], found[j]);
    }
  }

  /** What the stage that answers a query finds: the hosts entries, the entry of the cache, or the rules. */
  ghost function FoundBy(st: Stages, slots: Slots, now: nat, up: Upstreams, msg: Message): Message
    requires msg.queries != []
  {
    var key := KeyOf(st, msg.queries[0]);
    var direct, r := Hosts.DirectIps(st.entries, key.name), Redirected(st, msg, key);
    if direct.Some? then Hosts.HostsAnswer(st.names.parse, msg, key, direct.value)
    else if IsHit(st, slots, now, r) then HitResponse(st.codec, st.cfg, r.msg, slots[r.key].entry, now)
    else Routed(st.names, up, st.rules, r.msg, r.key, st.groupOf(r.key.name).group).0
  }

  /** Balancing is skipped as the cache stage says on a hit, else as the group says; never for hosts. */
  predicate SkipsBalance(st: Stages, slots: Slots, now: nat, msg: Message)
    requires msg.queries != []
  {
    var key := KeyOf(st, msg.queries[0]); var r := Redirected(st, msg, key);
    && Hosts.DirectIps(st.entries, key.name).None?
    && if IsHit(st, slots, now, r) then st.skipBalanceOnHit else st.groupOf(r.key.name).skipBalance
  }

  /** A reply has the query's id and the found response code, and its answers are the found ones, balanced
      for the queried type unless that is skipped; only their owners may differ. */
  lemma ReplyIsBalanced(st: Stages, slots: Slots, now: nat, env: Env, msg: Message)
    requires st.Valid() && msg.queries != []
    ensures var found, reply := FoundBy(st, slots, now, env.up, msg), ReplyTo(st, slots, now, env, msg).response;
            && reply.id == msg.id && reply.rcode == found.rcode
            && Renames(Balance.BalancedAnswers(st.settings, SkipsBalance(st, slots, now, msg), msg.queries[0].qtype,
                                               found.answers, env.first, env.second),
                       reply.answers)
  {
    hide Hosts.DirectIps, Hosts.Found, Hosts.HostsAnswer, HitResponse, Routed, Balance.BalancedAnswers, Restored;
    var f := FoundAnswer(st, slots, now, env.up, msg, KeyOf(st, msg.queries[0]));
    RestoringRenames(st, Balanced(st, env, f.response, f.key.qtype, f.skipBalance), f.original);
  }

  // ---------------------------------------------------------------------------
  // Which replies are kept
  // ---------------------------------------------------------------------------

  /** The reply leaves an entry when it is written back. */
  ghost predicate IsKept(st: Stages, reply: Reply) {
    Offered(reply) && Stored(st.codec, reply.response).Some?
  }

  /** Upstream's answer to query `r`, when a forward rule asks for one. */
  function UpstreamAnswer(st: Stages, up: Upstreams, r: Redirect): Option<Message> {
    match AnsweringRule(st, r)
    case Some(Forward(upstream, _, deny, _)) => if r.key.qtype in deny then None else up.ask(upstream, r.msg)
    case _ => None
  }

  /** A forward rule denies the type of query `r`. */
  predicate IsDenied(st: Stages, r: Redirect) {
    && AnsweringRule(st, r).Some? && AnsweringRule(st, r).value.Forward?
    && r.key.qtype in AnsweringRule(st, r).value.denyQtypes
  }

  /** The kept records still parse, so that a hit can be answered. */
  ghost predicate Rebuilds(st: Stages, slots: Slots, now: nat, r: Redirect)
    requires Readable(slots, r.key, now).Some?
  {
    var e := Readable(slots, r.key, now).value;
    Rebuilt(st.codec, r.msg, e.records, e.RemainingTtl(st.cfg.keepTtl, now)).Some?
  }

  predicate IsNegative(rcode: ResponseCode) {
    rcode == NXDomain || rcode == NoError
  }

  /** What a miss finds, when a forward rule answers it. */
  lemma ForwardFinding(st: Stages, slots: Slots, now: nat, up: Upstreams, r: Redirect)
    requires !IsHit(st, slots, now, r) && AnsweringRule(st, r).Some? && AnsweringRule(st, r).value.Forward?
    ensures var f := Fetched(st, slots, now, up, r);
            && (IsDenied(st, r) ==> f.response == ResponseBase(r.msg))
            && (!IsDenied(st, r) && UpstreamAnswer(st, up, r).None? ==> f.response == ServFailFor(r.msg))
            && (UpstreamAnswer(st, up, r).Some? ==> f.response.rcode == UpstreamAnswer(st, up, r).value.rcode)
  {
    hide Selected, SelectedCaptures, Readable, FollowupTo, CnameChain.ResolvedAnswers, Labelled;
  }

  /** The query upstream is asked: behind an alias for its original, if that parses, otherwise as it came. */
  function AskedBehindHosts(st: Stages, msg: Message): Message
    requires msg.queries != []
  {
    var q := msg.queries[0];
    match Hosts.Found(st.entries, TrimEnd(st.lowerText(q.name), '.'))
    case Alias(original) =>
      (match st.names.strict(original)
       case Some(name) => msg.(queries := [Question(name, q.qtype)] + msg.queries[1..])
       case None => msg)
    case _ => msg
  }

  /** The rule that answers a miss is selected by the name behind hosts and by the queried type. If it forwards
      and does not deny the type, upstream's answer to the query behind hosts gives the reply its response code,
      and upstream's silence gives SERVFAIL. */
  lemma ForwardAsksBehindHosts(st: Stages, slots: Slots, now: nat, env: Env, msg: Message, i: nat)
    requires st.Valid() && msg.queries != []
    requires Hosts.DirectIps(st.entries, TrimEnd(st.lowerText(msg.queries[0].name), '.')).None?
    requires var q, name := msg.queries[0], NameBehind(st, msg.queries[0]);
             && (st.groupOf(name).skipCache || Readable(slots, CacheKey(name, q.qtype), now).None?)
             && Selected(st.rules, name, q.qtype, st.groupOf(name).group) == Some(i)
             && st.rules[i].action.Forward? && q.qtype !in st.rules[i].action.denyQtypes
    ensures var answer := env.up.ask(st.rules[i].action.upstream, AskedBehindHosts(st, msg));
            ReplyTo(st, slots, now, env, msg).response.rcode ==
              if answer.Some? then answer.value.rcode else ServFail
  {
    hide Hosts.Found, Hosts.DirectIps, Selected, Readable, Balance.BalancedAnswers, Restored, HitResponse, Routed;
    hide Hosts.HostsAnswer;
    var r := Redirected(st, msg, KeyOf(st, msg.queries[0]));
    ReadsItsQuestion(st, msg);
    assert r.msg == AskedBehindHosts(st, msg);
    ReplyRearranges(st, slots, now, env, msg);
    ForwardFinding(st, slots, now, env.up, r);
  }

  lemma KeptOfNothing(c: Codec, found: Message, out: Message)
    requires found.answers == [] && CacheRuns.Rebalanced(found.answers, out.answers) && out.rcode == found.rcode
    ensures Stored(c, out).Some? <==> IsNegative(found.rcode)
  {
    StoredExactly(c, out);
    NothingAmongNothing(out.answers);
  }

  lemma NothingAmongNothing(after: seq<Record>)
    requires CacheRuns.Rebalanced([], after)
    ensures after == []
  {
    if after != [] {
      NotAmongNothing(after[0]);
    }
  }

  lemma NotAmongNothing(r: Record)
    ensures !CacheRuns.Among(r, [])
  {
  }

  /** A hit is kept exactly when its records still parse. */
  lemma KeptOfHit(st: Stages, slots: Slots, now: nat, r: Redirect, out: Message)
    requires Readable(slots, r.key, now).Some?
    requires var found := HitResponse(st.codec, st.cfg, r.msg, Readable(slots, r.key, now).value, now);
             CacheRuns.Rebalanced(found.answers, out.answers) && out.rcode == found.rcode
    ensures Stored(st.codec, out).Some? <==> Rebuilds(st, slots, now, r)
  {
    hide RecordsOf, AnswersOf, Readable, CacheEntry.RemainingTtl;
    var e := Readable(slots, r.key, now).value;
    var ttl := e.RemainingTtl(st.cfg.keepTtl, now);
    var found := HitResponse(st.codec, st.cfg, r.msg, e, now);
    if found.answers == [] {
      KeptOfNothing(st.codec, found, out);
    } else {
      RebuiltIsCacheable(st.codec, r.msg.queries[0].name, ttl, e.records);
      assert CacheRuns.Among(out.answers[0], found.answers);
      assert IsCacheable(out.answers[0]);
      StoredExactly(st.codec, out);
    }
  }

  /** A reply leaves an entry exactly when the hosts stage and the group let it come to the cache, and
      it is a hit that can be answered, or a forward rule denied the type, or upstream answered a forward
      with something that can be kept. */
  lemma KeptExactly(st: Stages, slots: Slots, now: nat, env: Env, msg: Message)
    requires st.Valid() && msg.queries != []
    ensures var key, reply := KeyOf(st, msg.queries[0]), ReplyTo(st, slots, now, env, msg);
            var r := Redirected(st, msg, key);
            IsKept(st, reply) <==>
              && Hosts.DirectIps(st.entries, key.name).None? && !st.groupOf(r.key.name).skipCache
              && if IsHit(st, slots, now, r) then Rebuilds(st, slots, now, r)
                 else IsDenied(st, r)
                      || (UpstreamAnswer(st, env.up, r).Some?
                          && (HasCacheable(reply.response.answers)
                              || IsNegative(UpstreamAnswer(st, env.up, r).value.rcode)))
  {
    hide ReplyTo, Redirected, Hosts.DirectIps, Hosts.HostsAnswer, Fetched, IsForward, KeyOf, Readable, Stored;
    hide HitResponse;
    hide Rebuilds, IsDenied, CacheRuns.Rebalanced;
    var r, reply := Redirected(st, msg, KeyOf(st, msg.queries[0])), ReplyTo(st, slots, now, env, msg);
    OfferedExactly(st, slots, now, env, msg);
    ReplyRearranges(st, slots, now, env, msg);
    if Offered(reply) {
      var f := Fetched(st, slots, now, env.up, r);
      if IsHit(st, slots, now, r) {
        HitFinding(st, slots, now, env.up, r);
        KeptOfHit(st, slots, now, r, reply.response);
      } else {
        ForwardFinding(st, slots, now, env.up, r);
        if UpstreamAnswer(st, env.up, r).Some? {
          StoredExactly(st.codec, reply.response);
          AnsweredIsNotDenied(st, env.up, r);
        } else {
          KeptOfNothing(st.codec, f.response, reply.response);
        }
      }
    } else {
      OnlyForwards(st, env.up, r);
    }
  }

  lemma HitFinding(st: Stages, slots: Slots, now: nat, up: Upstreams, r: Redirect)
    requires IsHit(st, slots, now, r)
    ensures Fetched(st, slots, now, up, r).response ==
            HitResponse(st.codec, st.cfg, r.msg, Readable(slots, r.key, now).value, now)
  {
    hide Routed, HitResponse, Readable;
  }

  lemma AnsweredIsNotDenied(st: Stages, up: Upstreams, r: Redirect)
    requires UpstreamAnswer(st, up, r).Some?
    ensures !IsDenied(st, r)
  {
    hide AnsweringRule;
  }

  lemma OnlyForwards(st: Stages, up: Upstreams, r: Redirect)
    ensures IsDenied(st, r) || UpstreamAnswer(st, up, r).Some? ==>
              AnsweringRule(st, r).Some? && AnsweringRule(st, r).value.Forward?
  {
    hide AnsweringRule;
  }

  /** The reply rests on no upstream answer to this query. */
  ghost predicate WithoutUpstream(st: Stages, slots: Slots, now: nat, up: Upstreams, msg: Message)
    requires msg.queries != []
  {
    var key := KeyOf(st, msg.queries[0]); var r := Redirected(st, msg, key);
    Hosts.DirectIps(st.entries, key.name).Some? || IsHit(st, slots, now, r) || UpstreamAnswer(st, up, r).None?
  }

  /** Replies that rest on no upstream answer are documented never to enter the cache. They do exactly
      when the cache itself answered, or on a miss that a forward rule denies; a forward that upstream
      leaves unanswered is offered to the cache but leaves nothing. */
  lemma KeptWithoutUpstreamExactly(st: Stages, slots: Slots, now: nat, env: Env, msg: Message)
    requires st.Valid() && msg.queries != []
    ensures var key, reply := KeyOf(st, msg.queries[0]), ReplyTo(st, slots, now, env, msg);
            var r := Redirected(st, msg, key);
            IsKept(st, reply) && WithoutUpstream(st, slots, now, env.up, msg) <==>
              && Hosts.DirectIps(st.entries, key.name).None? && !st.groupOf(r.key.name).skipCache
              && if IsHit(st, slots, now, r) then Rebuilds(st, slots, now, r) else IsDenied(st, r)
  {
    hide ReplyTo, Redirected, Hosts.DirectIps, KeyOf, Readable, IsKept, Rebuilds, IsDenied, HasCacheable;
    hide UpstreamAnswer;
    var r := Redirected(st, msg, KeyOf(st, msg.queries[0]));
    KeptExactly(st, slots, now, env, msg);
    if UpstreamAnswer(st, env.up, r).Some? {
      AnsweredIsNotDenied(st, env.up, r);
    }
  }

  // ---------------------------------------------------------------------------
  // A server step as steps of the cache
  // ---------------------------------------------------------------------------

  predicate Offered(reply: Reply) {
    !reply.skipCache && IsForward(reply.action)
  }

  ghost predicate AnsweredFromCache(st: Stages, s: State, msg: Message)
    requires msg.queries != []
  {
    var key := KeyOf(st, msg.queries[0]);
    Hosts.DirectIps(st.entries, key.name).None? && IsHit(st, s.slots, s.now, Redirected(st, msg, key))
  }

  ghost function CacheSteps(st: Stages, s: State, step: Step): seq<CacheRuns.Step>
    requires st.Valid()
  {
    match step
    case Tick(d) => [CacheRuns.Tick(d)]
    case Evict(key) => [CacheRuns.Evict(key)]
    case Ask(id, msg, env) =>
      if msg.queries == [] then [] else
      var reply, r := ReplyTo(st, s.slots, s.now, env, msg), Redirected(st, msg, KeyOf(st, msg.queries[0]));
      if AnsweredFromCache(st, s, msg) then
        [CacheRuns.Hit(id, r.key, r.msg), CacheRuns.Rebalance(id, reply.response.answers)]
      else if Offered(reply) then [CacheRuns.Upstream(id, reply.key, reply.response)]
      else [CacheRuns.Abandon(id)]
    case Settle(id) => [CacheRuns.WriteBack(id)]
    case Drop(id) => [CacheRuns.Abandon(id)]
  }

  ghost function Translated(st: Stages, steps: seq<Step>): seq<CacheRuns.Step>
    requires st.Valid()
  {
    if steps == [] then [] else
    var before := steps[..|steps| - 1];
    Translated(st, before) + CacheSteps(st, Run(st, before), steps[|steps| - 1])
  }

  /** A flight carries what its reply would leave in the cache. */
  ghost predicate Carries(f: CacheRuns.Flight, reply: Reply) {
    f.key == reply.key && f.response.answers == reply.response.answers && f.response.rcode == reply.response.rcode
  }

  ghost predicate Related(s: State, t: CacheRuns.State) {
    && t.now == s.now && t.slots == s.slots && t.lineages.Keys == s.slots.Keys
    && t.flights.Keys <= s.pending.Keys
    && forall id :: id in s.pending ==>
                      && (id in t.flights <==> Offered(s.pending[id]))
                      && (id in t.flights ==> Carries(t.flights[id], s.pending[id]))
  }

  ghost function ApplyAll(c: Codec, cfg: CacheConfig, t: CacheRuns.State, steps: seq<CacheRuns.Step>): CacheRuns.State
    decreases |steps|
  {
    if steps == [] then t else ApplyAll(c, cfg, CacheRuns.Apply(c, cfg, t, steps[0]), steps[1..])
  }

  lemma {:induction false} RunThen(c: Codec, cfg: CacheConfig, a: seq<CacheRuns.Step>, b: seq<CacheRuns.Step>)
    ensures CacheRuns.Run(c, cfg, a + b) == ApplyAll(c, cfg, CacheRuns.Run(c, cfg, a), b)
    decreases |b|
  {
    hide CacheRuns.Run, CacheRuns.Apply;
    if b == [] {
      assert a + b == a;
    } else {
      CacheRuns.RunAppend(c, cfg, a, b[0]);
      RunThen(c, cfg, a + [b[0]], b[1..]);
      assert a + b == a + [b[0]] + b[1..];
    }
  }

  lemma SettleSimulates(st: Stages, s: State, t: CacheRuns.State, id: nat)
    requires st.Valid() && Related(s, t)
    ensures Related(Apply(st, s, Settle(id)), CacheRuns.Apply(st.codec, st.cfg, t, CacheRuns.WriteBack(id)))
  {
    hide RecordsOf, MinTtl, Lifetime, CacheRuns.WrittenLineage, IsForward;
    if id in s.pending && Offered(s.pending[id]) {
      assert Stored(st.codec, t.flights[id].response) == Stored(st.codec, s.pending[id].response);
    }
  }

  lemma HitSimulates(st: Stages, s: State, t: CacheRuns.State, id: nat, msg: Message, env: Env)
    requires st.Valid() && Related(s, t) && msg.queries != [] && AnsweredFromCache(st, s, msg)
    ensures Related(Apply(st, s, Ask(id, msg, env)),
                    ApplyAll(st.codec, st.cfg, t, CacheSteps(st, s, Ask(id, msg, env))))
  {
    hide HitResponse, ReplyTo, Hosts.DirectIps, Redirected, CacheRuns.Rebalanced, IsForward;
    var r, reply := Redirected(st, msg, KeyOf(st, msg.queries[0])), ReplyTo(st, s.slots, s.now, env, msg);
    var entry := Readable(s.slots, r.key, s.now).value;
    var response := HitResponse(st.codec, st.cfg, r.msg, entry, s.now);
    HitReply(st, s, env, msg);
    ReplyRearranges(st, s.slots, s.now, env, msg);
    OfferedExactly(st, s.slots, s.now, env, msg);
    var t1 := CacheRuns.Apply(st.codec, st.cfg, t, CacheRuns.Hit(id, r.key, r.msg));
    assert t1.flights[id].response == response;
    var t2 := CacheRuns.Apply(st.codec, st.cfg, t1, CacheRuns.Rebalance(id, reply.response.answers));
    assert Carries(t2.flights[id], reply);
    ApplyTwo(st.codec, st.cfg, t, CacheRuns.Hit(id, r.key, r.msg), CacheRuns.Rebalance(id, reply.response.answers));
  }

  lemma ApplyTwo(c: Codec, cfg: CacheConfig, t: CacheRuns.State, a: CacheRuns.Step, b: CacheRuns.Step)
    ensures ApplyAll(c, cfg, t, [a, b]) == CacheRuns.Apply(c, cfg, CacheRuns.Apply(c, cfg, t, a), b)
  {
    hide CacheRuns.Apply;
    assert [a, b][1..] == [b];
    ApplyOne(c, cfg, CacheRuns.Apply(c, cfg, t, a), b);
  }

  lemma ApplyNone(c: Codec, cfg: CacheConfig, t: CacheRuns.State)
    ensures ApplyAll(c, cfg, t, []) == t
  {
  }

  lemma ApplyOne(c: Codec, cfg: CacheConfig, t: CacheRuns.State, a: CacheRuns.Step)
    ensures ApplyAll(c, cfg, t, [a]) == CacheRuns.Apply(c, cfg, t, a)
  {
    hide CacheRuns.Apply;
    assert [a][1..] == [];
  }

  /** What a query answered from the cache finds. */
  lemma HitReply(st: Stages, s: State, env: Env, msg: Message)
    requires st.Valid() && msg.queries != [] && AnsweredFromCache(st, s, msg)
    ensures var r := Redirected(st, msg, KeyOf(st, msg.queries[0]));
            var f := FoundAnswer(st, s.slots, s.now, env.up, msg, KeyOf(st, msg.queries[0]));
            && f.response == HitResponse(st.codec, st.cfg, r.msg, Readable(s.slots, r.key, s.now).value, s.now)
            && ReplyTo(st, s.slots, s.now, env, msg).key == r.key
  {
    hide HitResponse, Hosts.DirectIps, Redirected, Routed, Balance.BalancedAnswers, Restored, Readable;
  }

  /** A reply that becomes pending, and its flight if it is offered. */
  lemma PendingSimulates(c: Codec, cfg: CacheConfig, s: State, t: CacheRuns.State, id: nat, reply: Reply)
    requires Related(s, t)
    ensures Related(s.(pending := s.pending[id := reply]),
                    CacheRuns.Apply(c, cfg, t, if Offered(reply) then CacheRuns.Upstream(id, reply.key, reply.response)
                                               else CacheRuns.Abandon(id)))
  {
    hide Offered;
  }

  lemma MissSimulates(st: Stages, s: State, t: CacheRuns.State, id: nat, msg: Message, env: Env)
    requires st.Valid() && Related(s, t) && msg.queries != [] && !AnsweredFromCache(st, s, msg)
    ensures Related(Apply(st, s, Ask(id, msg, env)),
                    ApplyAll(st.codec, st.cfg, t, CacheSteps(st, s, Ask(id, msg, env))))
  {
    hide ReplyTo, Redirected, Offered, AnsweredFromCache, ApplyAll, Related, CacheRuns.Apply;
    ApplyOne(st.codec, st.cfg, t, CacheSteps(st, s, Ask(id, msg, env))[0]);
    PendingSimulates(st.codec, st.cfg, s, t, id, ReplyTo(st, s.slots, s.now, env, msg));
  }

  lemma StepSimulates(st: Stages, s: State, t: CacheRuns.State, step: Step)
    requires st.Valid() && Related(s, t)
    ensures Related(Apply(st, s, step), ApplyAll(st.codec, st.cfg, t, CacheSteps(st, s, step)))
  {
    hide ReplyTo, Redirected, Offered, Settled, AnsweredFromCache, ApplyAll, Carries;
    if step.Ask? {
      if step.msg.queries == [] {
        ApplyNone(st.codec, st.cfg, t);
      } else if AnsweredFromCache(st, s, step.msg) {
        HitSimulates(st, s, t, step.id, step.msg, step.env);
      } else {
        MissSimulates(st, s, t, step.id, step.msg, step.env);
      }
    } else {
      ApplyOne(st.codec, st.cfg, t, CacheSteps(st, s, step)[0]);
      if step.Settle? {
        SettleSimulates(st, s, t, step.id);
      }
    }
  }

  /** Every run of the server is a run of the cache. */
  lemma {:induction false} ServerRunIsCacheRun(st: Stages, steps: seq<Step>)
    requires st.Valid()
    ensures Related(Run(st, steps), CacheRuns.Run(st.codec, st.cfg, Translated(st, steps)))
  {
    hide Apply, CacheSteps, CacheRuns.Apply;
    if steps != [] {
      var before := steps[..|steps| - 1];
      ServerRunIsCacheRun(st, before);
      StepSimulates(st, Run(st, before), CacheRuns.Run(st.codec, st.cfg, Translated(st, before)), steps[|steps| - 1]);
      RunThen(st.codec, st.cfg, Translated(st, before), CacheSteps(st, Run(st, before), steps[|steps| - 1]));
    }
  }

  // ---------------------------------------------------------------------------
  // What clients receive
  // ---------------------------------------------------------------------------

  /** Every TTL in an answer from the cache ends no later than the upstream answer it goes back to, plus
      the delays of its lineage. */
  lemma ServedTtlsAreHonest(st: Stages, steps: seq<Step>, env: Env, msg: Message, i: nat)
    requires st.Valid() && !st.cfg.keepTtl && msg.queries != []
    requires AnsweredFromCache(st, Run(st, steps), msg)
    requires var s := Run(st, steps);
             i < |ReplyTo(st, s.slots, s.now, env, msg).response.answers|
    ensures var s, t := Run(st, steps), CacheRuns.Run(st.codec, st.cfg, Translated(st, steps));
            var reply := ReplyTo(st, s.slots, s.now, env, msg);
            var ttl := reply.response.answers[i].ttl;
            reply.key in t.lineages && CacheRuns.Honest(s.now, ttl, t.lineages[reply.key])
  {
    hide Apply, CacheSteps, CacheRuns.Apply, ReplyTo, FoundAnswer, HitResponse, Redirected, Readable, CacheRuns.Honest;
    var s, t := Run(st, steps), CacheRuns.Run(st.codec, st.cfg, Translated(st, steps));
    var r := Redirected(st, msg, KeyOf(st, msg.queries[0]));
    ServerRunIsCacheRun(st, steps);
    CacheRuns.RunKeepsInv(st.codec, st.cfg, Translated(st, steps));
    HitReply(st, s, env, msg);
    HitTtls(st.codec, st.cfg, t, r.key, r.msg);
    ReplyRearranges(st, s.slots, s.now, env, msg);
  }

  lemma HitTtls(c: Codec, cfg: CacheConfig, t: CacheRuns.State, key: CacheKey, msg: Message)
    requires !cfg.keepTtl && CacheRuns.Inv(cfg, t) && Readable(t.slots, key, t.now).Some?
    ensures key in t.lineages
    ensures var answers := HitResponse(c, cfg, msg, Readable(t.slots, key, t.now).value, t.now).answers;
            forall i :: 0 <= i < |answers| ==> CacheRuns.Honest(t.now, answers[i].ttl, t.lineages[key])
  {
    hide HitResponse, CacheRuns.SlotOk, CacheRuns.Honest;
    CacheRuns.HitIsOk(c, cfg, t.slots[key], t.lineages[key], msg, key, t.now);
  }

  // ---------------------------------------------------------------------------
  // Where entries come from
  // ---------------------------------------------------------------------------

  /** A query that a forward rule answers, on a miss, under cache key `key`. */
  ghost predicate ForwardAsk(st: Stages, step: Step, key: CacheKey) {
    && step.Ask? && step.msg.queries != []
    && var r := Redirected(st, step.msg, KeyOf(st, step.msg.queries[0]));
       && r.key == key && Hosts.DirectIps(st.entries, KeyOf(st, step.msg.queries[0]).name).None?
       && !st.groupOf(key.name).skipCache
       && AnsweringRule(st, r).Some? && AnsweringRule(st, r).value.Forward?
  }

  ghost predicate WasForwarded(st: Stages, steps: seq<Step>, key: CacheKey) {
    exists i :: 0 <= i < |steps| && ForwardAsk(st, steps[i], key)
  }

  ghost predicate AllForwarded(st: Stages, steps: seq<Step>, s: State) {
    && (forall key :: key in s.slots ==> WasForwarded(st, steps, key))
    && (forall id :: id in s.pending && Offered(s.pending[id]) ==> WasForwarded(st, steps, s.pending[id].key))
  }

  lemma OfferedWasForwarded(st: Stages, steps: seq<Step>, s: State, step: Step)
    requires st.Valid() && AllForwarded(st, steps, s) && step.Ask? && step.msg.queries != []
    ensures var reply := ReplyTo(st, s.slots, s.now, step.env, step.msg);
            Offered(reply) ==> WasForwarded(st, steps + [step], reply.key)
  {
    hide Redirected, FoundAnswer, Hosts.DirectIps, Hosts.HostsAnswer, AnsweringRule, IsForward, Restored;
    var reply := ReplyTo(st, s.slots, s.now, step.env, step.msg);
    OfferedExactly(st, s.slots, s.now, step.env, step.msg);
    if Offered(reply) {
      ReplyKey(st, s, step.env, step.msg);
      if AnsweredFromCache(st, s, step.msg) {
        assert reply.key in s.slots;
        Lasts(st, steps, step, reply.key);
      } else {
        assert ForwardAsk(st, (steps + [step])[|steps|], reply.key);
      }
    }
  }

  lemma ReplyKey(st: Stages, s: State, env: Env, msg: Message)
    requires st.Valid() && msg.queries != []
    requires Hosts.DirectIps(st.entries, KeyOf(st, msg.queries[0]).name).None?
    ensures ReplyTo(st, s.slots, s.now, env, msg).key == ReadKey(st, msg)
  {
    hide Redirected, Hosts.DirectIps, Hosts.HostsAnswer, Restored, Routed, HitResponse;
  }

  lemma Lasts(st: Stages, steps: seq<Step>, step: Step, key: CacheKey)
    requires WasForwarded(st, steps, key)
    ensures WasForwarded(st, steps + [step], key)
  {
    hide ForwardAsk;
    var i :| 0 <= i < |steps| && ForwardAsk(st, steps[i], key);
    assert (steps + [step])[i] == steps[i];
  }

  /** In every run, an entry's key belongs to a query that a forward rule answered. Names that only the
      hosts stage, block, cname or rewrite rules answer, or no rule, are never in the cache. */
  lemma {:induction false} EntriesGoBackToForwardRules(st: Stages, steps: seq<Step>)
    requires st.Valid()
    ensures AllForwarded(st, steps, Run(st, steps))
  {
    hide ReplyTo, ForwardAsk, WasForwarded, Offered;
    if steps != [] {
      var before, step := steps[..|steps| - 1], steps[|steps| - 1];
      var s := Run(st, before);
      EntriesGoBackToForwardRules(st, before);
      assert steps == before + [step];
      forall key | WasForwarded(st, before, key) ensures WasForwarded(st, steps, key) {
        Lasts(st, before, step, key);
      }
      if step.Ask? && step.msg.queries != [] {
        OfferedWasForwarded(st, before, s, step);
      } else if step.Settle? && step.id in s.pending {
        SettledKeys(st, s.slots, s.pending[step.id], s.now);
      }
    }
  }

  lemma SettledKeys(st: Stages, slots: Slots, reply: Reply, now: nat)
    ensures forall key :: key in Settled(st, slots, reply, now) ==> key in slots || (Offered(reply) && key == reply.key)
  {
    hide Stored, Lifetime, IsForward;
  }

  lemma RunOneMore(st: Stages, steps: seq<Step>, step: Step)
    requires st.Valid()
    ensures Run(st, steps + [step]) == Apply(st, Run(st, steps), step)
  {
    hide Apply;
    assert (steps + [step])[..|steps|] == steps;
  }
}
