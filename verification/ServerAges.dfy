/**
 How long the server goes on serving one upstream answer. The runs here ask upstream once, at the
 start; every later query for the name is answered from the cache.
*/
module ServerAges {
  import opened Wrappers
  import opened Dns
  import opened Query
  import opened CacheRecords
  import opened QueryCache
  import opened RuleSelection
  import opened RuleActions
  import opened Pipeline
  import opened ServerRuns
  import CnameChain
  import CacheRuns
  import Hosts
  import Balance

  /** A query that a forward rule answers on a miss, and whose group keeps the cache. */
  ghost predicate IsForwarded(st: Stages, msg: Message) {
    && msg.queries != []
    && var r := Redirected(st, msg, KeyOf(st, msg.queries[0]));
       && Hosts.DirectIps(st.entries, KeyOf(st, msg.queries[0]).name).None? && !st.groupOf(r.key.name).skipCache
       && AnsweringRule(st, r).Some? && AnsweringRule(st, r).value.Forward?
       && r.key.qtype !in AnsweringRule(st, r).value.denyQtypes
  }

  /** Only the first step asks upstream; all other queries are the same question, answered from the cache. */
  ghost predicate AskedOnce(st: Stages, steps: seq<Step>, msg: Message, env: Env)
    requires st.Valid() && msg.queries != []
  {
    && steps != [] && steps[0] == Ask(0, msg, env)
    && forall i :: 0 < i < |steps| && steps[i].Ask? ==>
                     steps[i].msg == msg && AnsweredFromCache(st, Run(st, steps[..i]), msg)
  }

  /** Such a run has the question answered from the cache more than `age` after upstream was asked. */
  ghost predicate ServedAtAge(st: Stages, steps: seq<Step>, msg: Message, env: Env, age: nat)
    requires st.Valid() && msg.queries != []
  {
    AskedOnce(st, steps, msg, env) && AnsweredFromCache(st, Run(st, steps), msg) && Run(st, steps).now > age
  }

  // ---------------------------------------------------------------------------
  // A round: wait, ask again, write back
  // ---------------------------------------------------------------------------

  /** `key` holds an entry of this kind and TTL, written just now. */
  ghost predicate Kept(st: Stages, s: State, key: CacheKey, positive: bool, ttl: nat) {
    && key in s.slots
    && var e := s.slots[key].entry;
       && e.createdAt == s.now && e.ttl == ttl && s.slots[key].deadline == s.now + Lifetime(st.cfg, ttl)
       && WellShaped(e.records) && NamesParse(st.codec, e.records) && IsPositive(e.records) == positive
  }

  /** The TTL an entry has after a hit `wait` later is written back. */
  function TtlAfter(keepTtl: bool, positive: bool, ttl: nat, wait: nat): nat {
    if !positive then DEFAULT_TTL
    else if keepTtl then ttl
    else if wait >= ttl * SECOND then 0 else (ttl * SECOND - wait) / SECOND
  }

  /** What a rearranged rebuilt answer leaves in the cache: an entry of the same kind, with the served TTL. */
  lemma RebuiltStores(c: Codec, msg: Message, records: seq<CacheRecord>, ttl: nat, out: Message)
    requires c.RoundTrips() && WellShaped(records) && NamesParse(c, records) && msg.queries != []
    requires Rebuilt(c, msg, records, ttl).Some?
    requires CacheRuns.Rebalanced(Rebuilt(c, msg, records, ttl).value.answers, out.answers)
    requires out.rcode == Rebuilt(c, msg, records, ttl).value.rcode
    ensures var stored := Stored(c, out);
            && stored.Some? && WellShaped(stored.value.0) && NamesParse(c, stored.value.0)
            && IsPositive(stored.value.0) == IsPositive(records)
            && stored.value.1 == if IsPositive(records) then ttl else DEFAULT_TTL
  {
    hide Codec.RoundTrips, CacheRecordOf, NamesParse;
    var owner := msg.queries[0].name;
    var before := AnswersOf(c, owner, ttl, records).value;
    if IsPositive(records) {
      PositiveStores(c, owner, records, ttl, out.answers);
    } else {
      CacheRuns.NegativeAnswersNothing(c, owner, ttl, records);
      NothingAmongNothing(out.answers);
    }
    StoredShape(c, out);
  }

  lemma PositiveStores(c: Codec, owner: Name, records: seq<CacheRecord>, ttl: nat, after: seq<Record>)
    requires c.RoundTrips() && WellShaped(records) && NamesParse(c, records) && IsPositive(records)
    requires AnswersOf(c, owner, ttl, records).Some?
    requires CacheRuns.Rebalanced(AnswersOf(c, owner, ttl, records).value, after)
    ensures RecordsOf(c, after) != [] && MinTtl(after) == ttl
  {
    hide Codec.RoundTrips, CacheRecordOf, NamesParse;
    var before, l := AnswersOf(c, owner, ttl, records).value, CacheRuns.Lineage(0, 0, records, 0);
    RecordsRoundTrip(c, owner, ttl, records);
    CacheRuns.MembersOfRecordsOf(c, before, l);
    forall i | 0 <= i < |after|
      ensures after[i].ttl == ttl
      ensures var r := CacheRecordOf(c, after[i].data); r.Some? && r.value in l.records
    {
      assert CacheRuns.Among(after[i], before);
    }
    CacheRuns.RecordsOfMembers(c, after, l);
  }

  /** A query that finds the entry is answered from the cache and leaves an entry of the same kind. */
  lemma HitKeeps(st: Stages, s: State, msg: Message, env: Env, positive: bool, ttl: nat, wait: nat)
    requires st.Valid() && st.codec.RoundTrips() && IsForwarded(st, msg)
    requires Kept(st, s, ReadKey(st, msg), positive, ttl) && wait < Lifetime(st.cfg, ttl)
    ensures var s1 := Apply(st, s, Tick(wait));
            var s2 := Apply(st, Apply(st, s1, Ask(0, msg, env)), Settle(0));
            && AnsweredFromCache(st, s1, msg) && s2.now == s.now + wait
            && Kept(st, s2, ReadKey(st, msg), positive, TtlAfter(st.cfg.keepTtl, positive, ttl, wait))
  {
    hide Codec.RoundTrips, NamesParse, WellShaped, IsPositive, Lifetime, ReplyTo, Redirected, FoundAnswer;
    hide AnsweringRule;
    hide Stored, Hosts.DirectIps, IsForward, Rebuilt, KeyOf, CacheRuns.Rebalanced;
    var key, s1 := ReadKey(st, msg), Apply(st, s, Tick(wait));
    var e := s.slots[key].entry;
    var r := Redirected(st, msg, KeyOf(st, msg.queries[0]));
    assert Readable(s1.slots, key, s1.now) == Some(e);
    RedirectHasQuestion(st, msg);
    var remaining := e.RemainingTtl(st.cfg.keepTtl, s1.now);
    CacheFixedPoint(st.codec, r.msg, e.records, remaining);
    HitReply(st, s1, env, msg);
    ReplyRearranges(st, s1.slots, s1.now, env, msg);
    var reply := ReplyTo(st, s1.slots, s1.now, env, msg);
    RebuiltStores(st.codec, r.msg, e.records, remaining, reply.response);
    OfferedExactly(st, s1.slots, s1.now, env, msg);
    SettledKeeps(st, s1, reply, key, positive, TtlAfter(st.cfg.keepTtl, positive, ttl, wait));
  }

  lemma RedirectHasQuestion(st: Stages, msg: Message)
    requires msg.queries != []
    ensures Redirected(st, msg, KeyOf(st, msg.queries[0])).msg.queries != []
  {
    hide Hosts.Found;
  }

  /** Writing back an offered reply leaves its entry. */
  lemma SettledKeeps(st: Stages, s: State, reply: Reply, key: CacheKey, positive: bool, ttl: nat)
    requires Offered(reply) && reply.key == key && Stored(st.codec, reply.response).Some?
    requires var (records, t) := Stored(st.codec, reply.response).value;
             WellShaped(records) && NamesParse(st.codec, records) && IsPositive(records) == positive && t == ttl
    ensures Kept(st, s.(slots := Settled(st, s.slots, reply, s.now)), key, positive, ttl)
  {
    hide NamesParse, WellShaped, IsPositive, Stored, Lifetime;
  }

  // ---------------------------------------------------------------------------
  // Rounds after the first answer
  // ---------------------------------------------------------------------------

  /** Upstream's answer, as it is written back when nothing is cached. */
  ghost predicate Starts(st: Stages, msg: Message, env: Env, positive: bool, ttl: nat)
    requires st.Valid() && msg.queries != []
  {
    var reply := ReplyTo(st, map[], 0, env, msg);
    && Offered(reply) && reply.key == ReadKey(st, msg) && Stored(st.codec, reply.response).Some?
    && IsPositive(Stored(st.codec, reply.response).value.0) == positive
    && Stored(st.codec, reply.response).value.1 == ttl
  }

  function Rounds(msg: Message, env: Env, wait: nat, n: nat): seq<Step> {
    if n == 0 then [Ask(0, msg, env)] + [Settle(0)]
    else Rounds(msg, env, wait, n - 1) + [Tick(wait)] + [Ask(0, msg, env)] + [Settle(0)]
  }

  function TtlAfterRounds(keepTtl: bool, positive: bool, ttl: nat, wait: nat, n: nat): nat {
    if n == 0 then ttl else TtlAfter(keepTtl, positive, TtlAfterRounds(keepTtl, positive, ttl, wait, n - 1), wait)
  }

  lemma StartKeeps(st: Stages, msg: Message, env: Env, positive: bool, ttl: nat)
    requires st.Valid() && IsForwarded(st, msg) && Starts(st, msg, env, positive, ttl)
    ensures var s := Run(st, Rounds(msg, env, 0, 0));
            s.now == 0 && Kept(st, s, ReadKey(st, msg), positive, ttl)
    ensures AskedOnce(st, Rounds(msg, env, 0, 0), msg, env)
  {
    hide IsForwarded, Starts, Kept, Apply, Run, AskedOnce;
    HasQuestion(st, msg);
    var first := [Ask(0, msg, env)];
    assert first == [] + [Ask(0, msg, env)];
    RunOneMore(st, [], Ask(0, msg, env));
    RunOneMore(st, first, Settle(0));
    NothingRun(st);
    FirstIsKept(st, msg, env, positive, ttl);
    FirstAskedOnce(st, msg, env);
  }

  lemma NothingRun(st: Stages)
    requires st.Valid()
    ensures Run(st, []) == INITIAL
  {
  }

  lemma FirstAskedOnce(st: Stages, msg: Message, env: Env)
    requires st.Valid() && msg.queries != []
    ensures AskedOnce(st, [Ask(0, msg, env)] + [Settle(0)], msg, env)
  {
    hide Run, AnsweredFromCache;
  }

  /** The first answer, written back at once. */
  lemma FirstIsKept(st: Stages, msg: Message, env: Env, positive: bool, ttl: nat)
    requires st.Valid() && msg.queries != [] && Starts(st, msg, env, positive, ttl)
    ensures var s := Apply(st, Apply(st, INITIAL, Ask(0, msg, env)), Settle(0));
            s.now == 0 && Kept(st, s, ReadKey(st, msg), positive, ttl)
  {
    hide ReplyTo, NamesParse, WellShaped, IsPositive, Stored, Kept, Settled, Offered, ReadKey;
    var s1, reply := Apply(st, INITIAL, Ask(0, msg, env)), ReplyTo(st, map[], 0, env, msg);
    StoredShape(st.codec, reply.response);
    SettledKeeps(st, s1, reply, ReadKey(st, msg), positive, ttl);
    KeptIgnoresPending(st, s1.(slots := Settled(st, map[], reply, 0)), Apply(st, s1, Settle(0)),
                       ReadKey(st, msg), positive, ttl);
  }

  lemma KeptIgnoresPending(st: Stages, a: State, b: State, key: CacheKey, positive: bool, ttl: nat)
    requires Kept(st, a, key, positive, ttl) && a.slots == b.slots && a.now == b.now
    ensures Kept(st, b, key, positive, ttl)
  {
  }

  lemma OneMoreRound(st: Stages, before: seq<Step>, msg: Message, env: Env, wait: nat)
    requires st.Valid() && msg.queries != [] && AskedOnce(st, before, msg, env)
    requires AnsweredFromCache(st, Apply(st, Run(st, before), Tick(wait)), msg)
    ensures var steps := before + [Tick(wait)] + [Ask(0, msg, env)] + [Settle(0)];
            && AskedOnce(st, steps, msg, env)
            && Run(st, steps) ==
               Apply(st, Apply(st, Apply(st, Run(st, before), Tick(wait)), Ask(0, msg, env)), Settle(0))
  {
    hide Run, Apply, AnsweredFromCache;
    var a, b := before + [Tick(wait)], before + [Tick(wait)] + [Ask(0, msg, env)];
    var steps := b + [Settle(0)];
    RunOneMore(st, before, Tick(wait));
    RunOneMore(st, a, Ask(0, msg, env));
    RunOneMore(st, b, Settle(0));
    forall i | 0 < i < |steps| && steps[i].Ask?
      ensures steps[i].msg == msg && AnsweredFromCache(st, Run(st, steps[..i]), msg)
    {
      if i < |before| {
        assert steps[..i] == before[..i] && steps[i] == before[i];
      } else {
        assert i == |before| + 1 && steps[..i] == a;
      }
    }
  }

  lemma {:induction false} RoundsKeep(st: Stages, msg: Message, env: Env, positive: bool, ttl: nat, wait: nat, n: nat)
    requires st.Valid() && st.codec.RoundTrips() && IsForwarded(st, msg)
    requires Starts(st, msg, env, positive, ttl)
    requires forall k :: 0 <= k < n ==> wait < Lifetime(st.cfg, TtlAfterRounds(st.cfg.keepTtl, positive, ttl, wait, k))
    ensures var s := Run(st, Rounds(msg, env, wait, n));
            && s.now == n * wait
            && Kept(st, s, ReadKey(st, msg), positive, TtlAfterRounds(st.cfg.keepTtl, positive, ttl, wait, n))
    ensures AskedOnce(st, Rounds(msg, env, wait, n), msg, env)
  {
    hide Codec.RoundTrips, IsForwarded, Starts, Kept, Apply, Run, AskedOnce, AnsweredFromCache, Lifetime, TtlAfter;
    hide ReadKey, Stages.Valid;
    HasQuestion(st, msg);
    if n == 0 {
      StartKeeps(st, msg, env, positive, ttl);
      assert Rounds(msg, env, wait, 0) == Rounds(msg, env, 0, 0);
    } else {
      RoundsKeep(st, msg, env, positive, ttl, wait, n - 1);
      NextRound(st, msg, env, positive, TtlAfterRounds(st.cfg.keepTtl, positive, ttl, wait, n - 1), wait,
        Rounds(msg, env, wait, n - 1));
      assert n * wait == (n - 1) * wait + wait;
    }
  }

  lemma NextRound(st: Stages, msg: Message, env: Env, positive: bool, ttl: nat, wait: nat, before: seq<Step>)
    requires st.Valid() && st.codec.RoundTrips() && IsForwarded(st, msg)
    requires Kept(st, Run(st, before), ReadKey(st, msg), positive, ttl) && wait < Lifetime(st.cfg, ttl)
    requires AskedOnce(st, before, msg, env)
    ensures var steps := before + [Tick(wait)] + [Ask(0, msg, env)] + [Settle(0)];
            && AskedOnce(st, steps, msg, env) && Run(st, steps).now == Run(st, before).now + wait
            && Kept(st, Run(st, steps), ReadKey(st, msg), positive, TtlAfter(st.cfg.keepTtl, positive, ttl, wait))
  {
    hide Codec.RoundTrips, IsForwarded, Kept, Apply, Run, AskedOnce, AnsweredFromCache, Lifetime, TtlAfter, ReadKey;
    HasQuestion(st, msg);
    HitKeeps(st, Run(st, before), msg, env, positive, ttl, wait);
    OneMoreRound(st, before, msg, env, wait);
  }

  lemma HasQuestion(st: Stages, msg: Message)
    requires IsForwarded(st, msg)
    ensures msg.queries != []
  {
  }

  /** After the rounds and a last wait the question is still answered from the cache. */
  lemma ServedAfterRounds(st: Stages, msg: Message, env: Env, positive: bool, ttl: nat, wait: nat, n: nat, last: nat,
                          age: nat)
    requires st.Valid() && st.codec.RoundTrips() && IsForwarded(st, msg)
    requires Starts(st, msg, env, positive, ttl)
    requires forall k :: 0 <= k < n ==> wait < Lifetime(st.cfg, TtlAfterRounds(st.cfg.keepTtl, positive, ttl, wait, k))
    requires last < Lifetime(st.cfg, TtlAfterRounds(st.cfg.keepTtl, positive, ttl, wait, n)) && n * wait + last > age
    ensures ServedAtAge(st, Rounds(msg, env, wait, n) + [Tick(last)], msg, env, age)
  {
    hide Codec.RoundTrips, Starts, Run, AskedOnce, Lifetime, Redirected, AnsweringRule, Hosts.DirectIps, KeyOf;
    var before := Rounds(msg, env, wait, n);
    RoundsKeep(st, msg, env, positive, ttl, wait, n);
    RunOneMore(st, before, Tick(last));
    WaitingAsksNobody(st, before, msg, env, last);
  }

  lemma WaitingAsksNobody(st: Stages, before: seq<Step>, msg: Message, env: Env, last: nat)
    requires st.Valid() && msg.queries != [] && AskedOnce(st, before, msg, env)
    ensures AskedOnce(st, before + [Tick(last)], msg, env)
  {
    hide Run, AnsweredFromCache;
    var steps := before + [Tick(last)];
    forall i | 0 < i < |steps| && steps[i].Ask?
      ensures steps[i].msg == msg && AnsweredFromCache(st, Run(st, steps[..i]), msg)
    {
      assert steps[..i] == before[..i] && steps[i] == before[i];
    }
  }

  // ---------------------------------------------------------------------------
  // The answers that are served too long
  // ---------------------------------------------------------------------------

  /** The server has runs that serve the answer past every age although upstream is asked only once: a
      positive answer when there is a minimum TTL, and whatever is readable when TTLs are kept or the
      answer is negative. */
  lemma ServesForEver(st: Stages, msg: Message, env: Env, positive: bool, ttl: nat, age: nat)
    requires st.Valid() && st.codec.RoundTrips() && IsForwarded(st, msg)
    requires Starts(st, msg, env, positive, ttl)
    requires if positive && !st.cfg.keepTtl then st.cfg.minTtl > 0 else Lifetime(st.cfg, ttl) > 0
    ensures exists steps :: ServedAtAge(st, steps, msg, env, age)
  {
    hide Codec.RoundTrips, IsForwarded, Starts, ServedAtAge, TtlAfter;
    HasQuestion(st, msg);
    var wait, n := SECOND - 1, age + 1;
    forall k | 0 <= k <= n ensures wait < Lifetime(st.cfg, TtlAfterRounds(st.cfg.keepTtl, positive, ttl, wait, k)) {
      LongEnough(st.cfg, positive, ttl, wait, k);
    }
    CacheRuns.Times(n, wait);
    ServedAfterRounds(st, msg, env, positive, ttl, wait, n, 0, age);
    assert ServedAtAge(st, Rounds(msg, env, wait, n) + [Tick(0)], msg, env, age);
  }

  lemma LongEnough(cfg: CacheConfig, positive: bool, ttl: nat, wait: nat, k: nat)
    requires cfg.Valid() && if positive && !cfg.keepTtl then cfg.minTtl > 0 else Lifetime(cfg, ttl) > 0
    ensures Lifetime(cfg, TtlAfterRounds(cfg.keepTtl, positive, ttl, wait, k)) >= SECOND
  {
    hide TtlAfterRounds;
    if cfg.keepTtl || !positive {
      RenewedTtl(cfg.keepTtl, positive, ttl, wait, k);
    }
  }

  lemma {:induction false} RenewedTtl(keepTtl: bool, positive: bool, ttl: nat, wait: nat, k: nat)
    requires keepTtl || !positive
    ensures TtlAfterRounds(keepTtl, positive, ttl, wait, k) == if k == 0 || positive then ttl else DEFAULT_TTL
  {
    if k > 0 {
      RenewedTtl(keepTtl, positive, ttl, wait, k - 1);
    }
  }

  /** The server has runs that serve a positive answer over the maximum TTL, whenever upstream's TTL is
      over it. */
  lemma OutlivesMax(st: Stages, msg: Message, env: Env, ttl: nat, age: nat)
    requires st.Valid() && st.codec.RoundTrips() && !st.cfg.keepTtl && IsForwarded(st, msg)
    requires Starts(st, msg, env, true, ttl) && 0 < st.cfg.maxTtl < ttl && age < st.cfg.maxTtl * SECOND
    ensures exists steps :: ServedAtAge(st, steps, msg, env, age)
  {
    hide Codec.RoundTrips, IsForwarded, Starts, ServedAtAge;
    HasQuestion(st, msg);
    var wait := st.cfg.maxTtl * SECOND - 1;
    assert TtlAfterRounds(false, true, ttl, wait, 0) == ttl;
    assert TtlAfterRounds(false, true, ttl, wait, 1) >= 1;
    ServedAfterRounds(st, msg, env, true, ttl, wait, 1, 1, age);
    assert ServedAtAge(st, Rounds(msg, env, wait, 1) + [Tick(1)], msg, env, age);
  }

  // ---------------------------------------------------------------------------
  // There are such answers for every forwarded name
  // ---------------------------------------------------------------------------

  /** Every upstream gives this answer, and no follow-up is answered. */
  function Saying(response: Message): Env {
    Env(Upstreams((upstream, msg) => Some(response), (upstream, msg) => None),
        Balance.Draw(0, map[]), Balance.Draw(0, map[]))
  }

  /** The TTL an upstream answer ends up with. */
  ghost function TtlByRule(st: Stages, msg: Message, ttl: nat): nat
    requires IsForwarded(st, msg)
  {
    var action := AnsweringRule(st, Redirected(st, msg, KeyOf(st, msg.queries[0]))).value;
    if action.ttlOverride.Some? then action.ttlOverride.value else ttl
  }

  /** Without a chain in front, a forward rule passes the records on with the rule's TTL. */
  lemma ForwardFinds(st: Stages, msg: Message, response: Message)
    requires st.Valid() && IsForwarded(st, msg) && CnameChain.LastCnameIndex(response.answers).None?
    ensures var f := FoundAnswer(st, map[], 0, Saying(response).up, msg, KeyOf(st, msg.queries[0]));
            && f.response.rcode == response.rcode && |f.response.answers| == |response.answers|
            && f.key == ReadKey(st, msg)
            && forall i :: 0 <= i < |response.answers| ==>
                             f.response.answers[i] ==
                                 response.answers[i].(ttl := TtlByRule(st, msg, response.answers[i].ttl))
  {
    hide Hosts.Found, Hosts.DirectIps, KeyOf, Redirected, FollowupTo, Selected, SelectedCaptures, HitResponse;
  }

  /** Every name a forward rule answers has positive answers of any TTL, as far as the rule lets it through,
      and negative ones, that are written back. */
  lemma AnswersStart(st: Stages, msg: Message, owner: Name, ttl: nat)
    requires st.Valid() && IsForwarded(st, msg)
    ensures Starts(st, msg, Saying(Message(0, NoError, [], [Record(owner, ttl, A(0))])), true, TtlByRule(st, msg, ttl))
    ensures Starts(st, msg, Saying(Message(0, NXDomain, [], [])), false, DEFAULT_TTL)
  {
    hide IsForwarded, Starts, TtlByRule;
    OneAnswerStarts(st, msg, owner, ttl);
    NoAnswerStarts(st, msg);
  }

  lemma OneAnswerStarts(st: Stages, msg: Message, owner: Name, ttl: nat)
    requires st.Valid() && IsForwarded(st, msg)
    ensures Starts(st, msg, Saying(Message(0, NoError, [], [Record(owner, ttl, A(0))])), true, TtlByRule(st, msg, ttl))
  {
    hide ReplyTo, FoundAnswer, TtlByRule, KeyOf, Redirected, AnsweringRule, IsForward, Hosts.DirectIps;
    var response := Message(0, NoError, [], [Record(owner, ttl, A(0))]);
    var env := Saying(response);
    ForwardFinds(st, msg, response);
    ReplyRearranges(st, map[], 0, env, msg);
    OfferedExactly(st, map[], 0, env, msg);
    var reply := ReplyTo(st, map[], 0, env, msg);
    ReplyKey(st, INITIAL, env, msg);
    var f := FoundAnswer(st, map[], 0, env.up, msg, KeyOf(st, msg.queries[0]));
    assert f.response.answers == [Record(owner, TtlByRule(st, msg, ttl), A(0))];
    CopiesStore(st.codec, f.response.answers[0], reply.response.answers);
    StoredShape(st.codec, reply.response);
  }

  /** Any rearrangement of one cacheable record is stored as such, with its TTL. */
  lemma CopiesStore(c: Codec, record: Record, after: seq<Record>)
    requires record.data.A? && CacheRuns.Rebalanced([record], after)
    ensures RecordsOf(c, after) != [] && MinTtl(after) == record.ttl
  {
    var l := CacheRuns.Lineage(0, 0, [CachedA(record.data.v4)], 0);
    forall i | 0 <= i < |after|
      ensures after[i].ttl == record.ttl
      ensures var r := CacheRecordOf(c, after[i].data); r.Some? && r.value in l.records
    {
      assert CacheRuns.Among(after[i], [record]);
    }
    CacheRuns.RecordsOfMembers(c, after, l);
  }

  lemma NoAnswerStarts(st: Stages, msg: Message)
    requires st.Valid() && IsForwarded(st, msg)
    ensures Starts(st, msg, Saying(Message(0, NXDomain, [], [])), false, DEFAULT_TTL)
  {
    hide ReplyTo, FoundAnswer, KeyOf, Redirected, AnsweringRule, IsForward, Hosts.DirectIps;
    var response := Message(0, NXDomain, [], []);
    var env := Saying(response);
    ForwardFinds(st, msg, response);
    ReplyRearranges(st, map[], 0, env, msg);
    OfferedExactly(st, map[], 0, env, msg);
    ReplyKey(st, INITIAL, env, msg);
    NothingAmongNothing(ReplyTo(st, map[], 0, env, msg).response.answers);
  }

  /** With a minimum TTL, or when TTLs are kept, every forwarded name has a run in which an upstream answer
      is served past any age, its own expiry included, though upstream was asked only once. */
  lemma ForwardedNamesOutliveUpstream(st: Stages, msg: Message, ttl: nat, age: nat)
    requires st.Valid() && st.codec.RoundTrips() && IsForwarded(st, msg)
    requires if st.cfg.keepTtl then TtlByRule(st, msg, ttl) > 0 else st.cfg.minTtl > 0
    ensures exists env, steps ::
              Starts(st, msg, env, true, TtlByRule(st, msg, ttl)) && ServedAtAge(st, steps, msg, env, age)
  {
    hide Codec.RoundTrips, IsForwarded, Starts, ServedAtAge, TtlByRule;
    HasQuestion(st, msg);
    var env := Saying(Message(0, NoError, [], [Record(Name([]), ttl, A(0))]));
    AnswersStart(st, msg, Name([]), ttl);
    ServesForEver(st, msg, env, true, TtlByRule(st, msg, ttl), age);
    var steps :| ServedAtAge(st, steps, msg, env, age);
  }

  /** Whenever anything is readable at all, every forwarded name has a run in which an NXDOMAIN answer is
      served past any age. */
  lemma ForwardedNamesKeepNxdomain(st: Stages, msg: Message, age: nat)
    requires st.Valid() && st.codec.RoundTrips() && Lifetime(st.cfg, DEFAULT_TTL) > 0 && IsForwarded(st, msg)
    ensures exists env, steps ::
              Starts(st, msg, env, false, DEFAULT_TTL) && ServedAtAge(st, steps, msg, env, age)
  {
    hide Codec.RoundTrips, IsForwarded, Starts, ServedAtAge;
    HasQuestion(st, msg);
    var env := Saying(Message(0, NXDomain, [], []));
    AnswersStart(st, msg, Name([]), 0);
    ServesForEver(st, msg, env, false, DEFAULT_TTL, age);
    var steps :| ServedAtAge(st, steps, msg, env, age);
  }

  /** Every forwarded name has a run in which an answer whose TTL is over the maximum is served over it. */
  lemma ForwardedNamesOutliveMax(st: Stages, msg: Message, ttl: nat, age: nat)
    requires st.Valid() && st.codec.RoundTrips() && !st.cfg.keepTtl && st.cfg.maxTtl > 0 && IsForwarded(st, msg)
    requires TtlByRule(st, msg, ttl) > st.cfg.maxTtl && age + 1 == st.cfg.maxTtl * SECOND
    ensures exists env, steps ::
              Starts(st, msg, env, true, TtlByRule(st, msg, ttl)) && ServedAtAge(st, steps, msg, env, age)
  {
    hide Codec.RoundTrips, IsForwarded, Starts, ServedAtAge, TtlByRule;
    HasQuestion(st, msg);
    var env := Saying(Message(0, NoError, [], [Record(Name([]), ttl, A(0))]));
    AnswersStart(st, msg, Name([]), ttl);
    OutlivesMax(st, msg, env, TtlByRule(st, msg, ttl), age);
    var steps :| ServedAtAge(st, steps, msg, env, age);
  }
}
