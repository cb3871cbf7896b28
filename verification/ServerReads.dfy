/**
 Which entry a question reads, and how long a reply that was written back is read: for its time,
 by the questions that agree with its own in type and in name behind hosts, and by no others.
*/
module ServerReads {
  import opened Wrappers
  import opened Dns
  import opened Query
  import opened CacheRecords
  import opened QueryCache
  import opened Pipeline
  import opened ServerRuns
  import CacheRuns
  import Hosts
  import Text

  // ---------------------------------------------------------------------------
  // Steps that leave things alone
  // ---------------------------------------------------------------------------

  /** The steps neither answer nor give up the pending reply `id`, nor replace it. */
  predicate Leaves(steps: seq<Step>, id: nat) {
    forall i :: 0 <= i < |steps| ==> LeavesPending(steps[i], id)
  }

  predicate LeavesPending(step: Step, id: nat) {
    step.Ask? || step.Settle? || step.Drop? ==> step.id != id
  }

  lemma {:induction false} PendingStays(st: Stages, before: seq<Step>, between: seq<Step>, id: nat)
    requires st.Valid() && id in Run(st, before).pending && Leaves(between, id)
    ensures var s, t := Run(st, before), Run(st, before + between);
            id in t.pending && t.pending[id] == s.pending[id]
  {
    hide Run, ReplyTo, Settled;
    if between == [] {
      assert before + between == before;
    } else {
      var n := |between| - 1;
      PendingStays(st, before, between[..n], id);
      RunOneMore(st, before + between[..n], between[n]);
      assert LeavesPending(between[n], id);
      assert before + between == before + between[..n] + [between[n]];
    }
  }

  /** Taken in state `s`, the step neither evicts `key` nor writes it. */
  predicate Spares(s: State, step: Step, key: CacheKey) {
    match step
    case Evict(k) => k != key
    case Settle(id) => id in s.pending && Offered(s.pending[id]) ==> s.pending[id].key != key
    case _ => true
  }

  /** No step of `after`, taken on from the run `before`, evicts or writes `key`. */
  ghost predicate AllSpare(st: Stages, before: seq<Step>, after: seq<Step>, key: CacheKey)
    requires st.Valid()
  {
    after == [] ||
    var n := |after| - 1;
    AllSpare(st, before, after[..n], key) && Spares(Run(st, before + after[..n]), after[n], key)
  }

  lemma StepSpares(st: Stages, s: State, step: Step, key: CacheKey)
    requires st.Valid() && Spares(s, step, key) && key in s.slots
    ensures var t := Apply(st, s, step);
            key in t.slots && t.slots[key] == s.slots[key] && s.now <= t.now
  {
    hide ReplyTo, Stored, Lifetime, IsForward;
  }

  lemma {:induction false} EntryStays(st: Stages, before: seq<Step>, after: seq<Step>, key: CacheKey)
    requires st.Valid() && key in Run(st, before).slots && AllSpare(st, before, after, key)
    ensures var s, t := Run(st, before), Run(st, before + after);
            key in t.slots && t.slots[key] == s.slots[key] && s.now <= t.now
  {
    hide Run, Apply, Spares;
    if after == [] {
      assert before + after == before;
    } else {
      var n := |after| - 1;
      EntryStays(st, before, after[..n], key);
      StepSpares(st, Run(st, before + after[..n]), after[n], key);
      RunOneMore(st, before + after[..n], after[n]);
      assert before + after == before + after[..n] + [after[n]];
    }
  }

  // ---------------------------------------------------------------------------
  // How long a reply is read
  // ---------------------------------------------------------------------------

  /** The hosts stage does not answer the question. */
  predicate PassesHosts(st: Stages, q: Question) {
    Hosts.DirectIps(st.entries, Text.TrimEnd(st.lowerText(q.name), '.')).None?
  }

  /** `again` asks for the same type as `q`, and for the same name behind hosts. */
  predicate SameBehind(st: Stages, q: Question, again: Question) {
    again.qtype == q.qtype && NameBehind(st, again) == NameBehind(st, q)
  }

  /** Once a reply that can be kept has been written back, and until its key is written or evicted, each
      question that agrees with its own behind hosts is answered from the cache exactly as long as the
      configuration says of the reply's least TTL, and with the whole seconds left of that. */
  lemma SettledAnswerIsServed(st: Stages, before: seq<Step>, id: nat, msg: Message, env: Env, between: seq<Step>,
                              after: seq<Step>, again: Message, other: Env)
    requires st.Valid() && msg.queries != [] && again.queries != []
    requires SameBehind(st, msg.queries[0], again.queries[0]) && PassesHosts(st, again.queries[0])
    requires var s := Run(st, before); var reply := ReplyTo(st, s.slots, s.now, env, msg);
             && IsKept(st, reply) && Leaves(between, id)
             && AllSpare(st, before + [Ask(id, msg, env)] + between + [Settle(id)], after, reply.key)
    ensures var s, settled := Run(st, before), Run(st, before + [Ask(id, msg, env)] + between);
            var t := Run(st, before + [Ask(id, msg, env)] + between + [Settle(id)] + after);
            var kept := Stored(st.codec, ReplyTo(st, s.slots, s.now, env, msg).response).value;
            && settled.now <= t.now
            && ReadableInTime(st.cfg, kept.1, t.now - settled.now, AnsweredFromCache(st, t, again))
            && (AnsweredFromCache(st, t, again) ==>
                  forall r <- ReplyTo(st, t.slots, t.now, other, again).response.answers ::
                    ServedTtl(st.cfg, kept.1, t.now - settled.now, r.ttl))
  {
    hide Run, ReplyTo, Stored, Leaves, AllSpare, Lifetime, NameBehind, Hosts.DirectIps, Readable, IsForward;
    hide AnsweredFromCache, ReadableInTime, ServedTtl;
    var s := Run(st, before);
    var reply := ReplyTo(st, s.slots, s.now, env, msg);
    var asked := before + [Ask(id, msg, env)];
    RunOneMore(st, before, Ask(id, msg, env));
    PendingStays(st, asked, between, id);
    RunOneMore(st, asked + between, Settle(id));
    KeptIsKeyed(st, s, env, msg);
    EntryStays(st, asked + between + [Settle(id)], after, reply.key);
    ServedInTime(st, Run(st, asked + between), reply, Run(st, asked + between + [Settle(id)] + after), again, other);
  }

  /** A kept reply is keyed by its question behind hosts, and its group does not skip the cache. */
  lemma KeptIsKeyed(st: Stages, s: State, env: Env, msg: Message)
    requires st.Valid() && msg.queries != [] && Offered(ReplyTo(st, s.slots, s.now, env, msg))
    ensures var key := ReplyTo(st, s.slots, s.now, env, msg).key;
            && key == CacheKey(NameBehind(st, msg.queries[0]), msg.queries[0].qtype)
            && !st.groupOf(key.name).skipCache
  {
    hide ReplyTo, Redirected, Hosts.Found, Hosts.DirectIps, IsForward, NameBehind, AnsweringRule, IsHit;
    OfferedExactly(st, s.slots, s.now, env, msg);
    ReplyKey(st, s, env, msg);
    ReadsItsQuestion(st, msg);
  }

  /** The reply written in state `s` is still in place in state `t`. */
  lemma ServedInTime(st: Stages, s: State, reply: Reply, t: State, again: Message, env: Env)
    requires st.Valid() && again.queries != [] && PassesHosts(st, again.queries[0]) && IsKept(st, reply)
    requires reply.key == CacheKey(NameBehind(st, again.queries[0]), again.queries[0].qtype)
    requires !st.groupOf(reply.key.name).skipCache && s.now <= t.now && reply.key in t.slots
    requires t.slots[reply.key] == Settled(st, s.slots, reply, s.now)[reply.key]
    ensures var kept := Stored(st.codec, reply.response).value;
            && ReadableInTime(st.cfg, kept.1, t.now - s.now, AnsweredFromCache(st, t, again))
            && (AnsweredFromCache(st, t, again) ==>
                  forall r <- ReplyTo(st, t.slots, t.now, env, again).response.answers ::
                    ServedTtl(st.cfg, kept.1, t.now - s.now, r.ttl))
  {
    hide ReplyTo, Stored, Lifetime, NameBehind, Hosts.DirectIps, Hosts.Found, IsForward, ReadableInTime;
    hide HitResponse, FoundAnswer, Redirected, ServedTtl;
    var kept, r := Stored(st.codec, reply.response).value, Redirected(st, again, KeyOf(st, again.queries[0]));
    ReadsItsQuestion(st, again);
    PutIsReadInTime(st.cfg, s.slots, reply.key, kept.0, kept.1, s.now, t.now);
    if AnsweredFromCache(st, t, again) {
      HitReply(st, t, env, again);
      ReplyRearranges(st, t.slots, t.now, env, again);
      var entry := Readable(t.slots, r.key, t.now).value;
      HitTtl(st, r.msg, entry, t.now);
    }
  }

  lemma HitTtl(st: Stages, msg: Message, entry: CacheEntry, now: nat)
    ensures forall r <- HitResponse(st.codec, st.cfg, msg, entry, now).answers ::
              r.ttl == entry.RemainingTtl(st.cfg.keepTtl, now)
  {
    hide AnswersOf, CacheEntry.RemainingTtl;
  }

  // ---------------------------------------------------------------------------
  // Whom a reply does not concern
  // ---------------------------------------------------------------------------

  /** Writing a reply back never changes whether or how a question of another type, or for another name
      behind hosts, is answered. */
  lemma OthersAreUndisturbed(st: Stages, before: seq<Step>, id: nat, msg: Message, env: Env, between: seq<Step>,
                             later: Message, other: Env)
    requires st.Valid() && msg.queries != [] && later.queries != [] && Leaves(between, id)
    requires !SameBehind(st, msg.queries[0], later.queries[0])
    ensures var s := Run(st, before + [Ask(id, msg, env)] + between);
            var t := Run(st, before + [Ask(id, msg, env)] + between + [Settle(id)]);
            && (AnsweredFromCache(st, t, later) <==> AnsweredFromCache(st, s, later))
            && ReplyTo(st, t.slots, t.now, other, later) == ReplyTo(st, s.slots, s.now, other, later)
  {
    hide Run, ReplyTo, Settled, Leaves, NameBehind, Hosts.DirectIps, Redirected, IsForward, Offered;
    var asked := before + [Ask(id, msg, env)];
    var s, t := Run(st, asked + between), Run(st, asked + between + [Settle(id)]);
    var start := Run(st, before);
    var reply := ReplyTo(st, start.slots, start.now, env, msg);
    RunOneMore(st, before, Ask(id, msg, env));
    PendingStays(st, asked, between, id);
    RunOneMore(st, asked + between, Settle(id));
    ReadsItsQuestion(st, later);
    if Offered(reply) {
      KeptIsKeyed(st, start, env, msg);
    }
    SettlingSparesOthers(st, s.slots, reply, s.now, ReadKey(st, later));
    CacheUsesOneKey(st, s.slots, t.slots, s.now, s.now, other, later, ReadKey(st, later));
  }

  lemma SettlingSparesOthers(st: Stages, slots: Slots, reply: Reply, now: nat, key: CacheKey)
    requires Offered(reply) ==> reply.key != key
    ensures Readable(Settled(st, slots, reply, now), key, now) == Readable(slots, key, now)
  {
    hide Stored, Lifetime, IsForward;
  }
}
