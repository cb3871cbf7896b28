/**
 The query pipeline: hosts, groups, cache, rules, then balancing, restoring the queried name,
 and writing the answer back.
*/
module Pipeline {
  import opened Wrappers
  import opened Text
  import opened Dns
  import opened Query
  import opened CacheRecords
  import opened QueryCache
  import opened RuleSelection
  import opened RuleActions
  import opened StableSort
  import Hosts
  import Balance

  /** Which group a name belongs to, and what that switches off. */
  datatype GroupVerdict = GroupVerdict(group: Option<string>, skipCache: bool, skipBalance: bool)

  /** The configuration the stages work by. */
  datatype Stages = Stages(
    entries: seq<Hosts.Entry>,
    groupOf: string -> GroupVerdict,
    rules: seq<Rule>,
    settings: Balance.Settings,
    cfg: CacheConfig,
    skipBalanceOnHit: bool,
    codec: Codec,
    names: Names,
    lowerText: Name -> string)
  {
    ghost predicate Valid() {
      Balance.AllValid(settings.cidrs) && cfg.Valid()
    }
  }

  /** What one query meets outside: the upstreams, and the numbers drawn for balancing. */
  datatype Env = Env(up: Upstreams, first: Balance.Draw, second: Balance.Draw)

  /** What a query ends with. `key` is the cache key it is written back under. */
  datatype Reply = Reply(response: Message, key: CacheKey, action: string, skipCache: bool)

  // ---------------------------------------------------------------------------
  // The stages as functions
  // ---------------------------------------------------------------------------

  /** The key of a query: its name in lower case without trailing dots, and its type. */
  function KeyOf(st: Stages, q: Question): CacheKey {
    CacheKey(TrimEnd(st.lowerText(q.name), '.'), q.qtype)
  }

  /** Where an alias sends a query that is not answered by the hosts stage. */
  datatype Redirect = Redirect(msg: Message, key: CacheKey, original: Option<string>)

  function Redirected(st: Stages, msg: Message, key: CacheKey): Redirect {
    match Hosts.Found(st.entries, key.name)
    case Alias(original) =>
      var parsed := st.names.strict(original);
      Redirect(if parsed.Some? then Asking(msg, parsed.value) else msg, key.(name := original), Some(key.name))
    case _ => Redirect(msg, key, None)
  }

  /** What the answering stages leave in the context. */
  datatype Finding = Finding(response: Message, action: string, key: CacheKey, skipCache: bool, skipBalance: bool,
                             original: Option<string>)

  /** The cache answers first; on a miss the rules do. */
  function Fetched(st: Stages, slots: Slots, now: nat, up: Upstreams, r: Redirect): Finding {
    var verdict := st.groupOf(r.key.name);
    var entry := Readable(slots, r.key, now);
    if !verdict.skipCache && entry.Some? then
      var response := HitResponse(st.codec, st.cfg, r.msg, entry.value, now);
      Finding(response, entry.value.ActionName(), r.key, false, st.skipBalanceOnHit, r.original)
    else
      var routed := Routed(st.names, up, st.rules, r.msg, r.key, verdict.group);
      Finding(routed.0, routed.1, r.key, verdict.skipCache, verdict.skipBalance, r.original)
  }

  /** Static hosts come before everything else. */
  function FoundAnswer(st: Stages, slots: Slots, now: nat, up: Upstreams, msg: Message, key: CacheKey): Finding {
    match Hosts.DirectIps(st.entries, key.name)
    case Some(ips) => Finding(Hosts.HostsAnswer(st.names.parse, msg, key, ips), "hosts", key, false, false, None)
    case None => Fetched(st, slots, now, up, Redirected(st, msg, key))
  }

  function Balanced(st: Stages, env: Env, response: Message, qtype: RecordType, skip: bool): Message
    requires st.Valid()
  {
    response.(answers := Balance.BalancedAnswers(st.settings, skip, qtype, response.answers, env.first, env.second))
  }

  /** The queried name put back on question and answers after an alias, if it parses. */
  function Restored(st: Stages, response: Message, original: Option<string>): Message {
    if original.None? then response
    else match st.names.strict(original.value)
      case None => response
      case Some(name) => Asking(response, name).(answers := OwnedBy(response.answers, name))
  }

  /** The reply to a query with a question. */
  function ReplyTo(st: Stages, slots: Slots, now: nat, env: Env, msg: Message): Reply
    requires st.Valid() && msg.queries != []
  {
    var f := FoundAnswer(st, slots, now, env.up, msg, KeyOf(st, msg.queries[0]));
    var balanced := Balanced(st, env, f.response, f.key.qtype, f.skipBalance);
    Reply(Restored(st, balanced, f.original).(id := msg.id), f.key, f.action, f.skipCache)
  }

  /** The store after a reply is written back. */
  function Settled(st: Stages, slots: Slots, reply: Reply, now: nat): Slots {
    if !reply.skipCache && IsForward(reply.action)
    then WrittenBack(st.codec, st.cfg, slots, reply.key, reply.response, now)
    else slots
  }

  // ---------------------------------------------------------------------------
  // The server
  // ---------------------------------------------------------------------------

  class Server {
    const hosts: Hosts.Hosts
    const groupOf: string -> GroupVerdict
    const cache: Cache
    const rules: Rules
    const balance: Balance.Balance
    const names: Names
    const lowerText: Name -> string

    ghost predicate Valid() {
      hosts.Valid() && rules.Valid() && balance.Valid() && cache.cache.cfg.Valid()
    }

    ghost function Config(): Stages {
      Stages(hosts.entries, groupOf, rules.rules, balance.settings, cache.cache.cfg, cache.skipBalanceOnHit,
             cache.codec, names, lowerText)
    }

    constructor (hosts: Hosts.Hosts, groupOf: string -> GroupVerdict, cache: Cache, rules: Rules,
                 balance: Balance.Balance, names: Names, lowerText: Name -> string)
      ensures this.hosts == hosts && this.groupOf == groupOf && this.cache == cache && this.rules == rules
      ensures this.balance == balance && this.names == names && this.lowerText == lowerText
    {
      this.hosts, this.groupOf, this.cache, this.rules := hosts, groupOf, cache, rules;
      this.balance, this.names, this.lowerText := balance, names, lowerText;
    }

    /** The groups stage; it never answers. */
    method HandleGroups(ctx: QueryContext)
      modifies ctx`group, ctx`skipCache, ctx`skipBalance
      ensures var verdict := groupOf(ctx.key.name);
              && ctx.group == (if verdict.group.Some? then verdict.group else old(ctx.group))
              && ctx.skipCache == (old(ctx.skipCache) || verdict.skipCache)
              && ctx.skipBalance == (old(ctx.skipBalance) || verdict.skipBalance)
    {
      var verdict := groupOf(ctx.key.name);
      if verdict.group.Some? {
        ctx.group := verdict.group;
      }
      if verdict.skipCache {
        ctx.skipCache := true;
      }
      if verdict.skipBalance {
        ctx.skipBalance := true;
      }
    }

    /** Puts the name the client asked for back on the response. */
    method RestoreName(ctx: QueryContext)
      requires ctx.response.Some?
      modifies ctx`response, ctx`originalName
      ensures ctx.response == Some(Restored(Config(), old(ctx.response.value), old(ctx.originalName)))
      ensures ctx.originalName.None?
    {
      var original := ctx.originalName;
      ctx.originalName := None;
      if original.Some? {
        var name := names.strict(original.value);
        if name.Some? {
          var response := ctx.response.value;
          var owned := OwnAnswers(Asking(response, name.value), name.value);
          ctx.response := Some(owned);
        }
      }
    }

    /** Hosts, groups, cache and rules: the stages that find an answer. One of them always does. */
    method FindAnswer(ctx: QueryContext, now: nat, up: Upstreams)
      requires Valid() && !ctx.skipCache && !ctx.skipBalance && ctx.response.None?
      requires ctx.group.None? && ctx.captures == [] && ctx.originalName.None?
      modifies ctx
      ensures var f := FoundAnswer(Config(), cache.cache.inner, now, up, old(ctx.msg), old(ctx.key));
              && ctx.response == Some(f.response) && ctx.action == f.action && ctx.key == f.key
              && ctx.skipCache == f.skipCache && ctx.skipBalance == f.skipBalance && ctx.originalName == f.original
    {
      hide Hosts.Found, Routed, HitResponse, Readable, Hosts.Hosts.Valid, Rules.Valid, Balance.Balance.Valid;
      hide Hosts.HostsAnswer;
      var respond := hosts.Handle(names.strict, names.parse, ctx);
      if !respond {
        HandleGroups(ctx);
        respond := cache.Lookup(ctx, now);
      }
      if !respond {
        HandleRules(names, up, rules, ctx);
      }
    }

    /** Everything up to the write-back; None without a question. */
    method Answer(msg: Message, now: nat, env: Env) returns (r: Option<QueryContext>)
      requires Valid()
      ensures r.None? <==> msg.queries == []
      ensures r.Some? ==>
                var reply, ctx := ReplyTo(Config(), cache.cache.inner, now, env, msg), r.value;
                && fresh(ctx) && ctx.response == Some(reply.response) && ctx.key == reply.key
                && ctx.action == reply.action && ctx.skipCache == reply.skipCache
    {
      hide FoundAnswer, Hosts.Hosts.Valid, Rules.Valid, Restored, Balance.BalancedAnswers;
      if msg.queries == [] {
        return None;
      }
      var query := msg.queries[0];
      var name := TrimEnd(lowerText(query.name), '.');
      var ctx := new QueryContext(msg, CacheKey(name, query.qtype));
      FindAnswer(ctx, now, env.up);
      balance.Handle(ctx, env.first, env.second);
      RestoreName(ctx);
      ctx.response := Some(ctx.response.value.(id := msg.id));
      r := Some(ctx);
    }

    /** A whole query: answered at `now`, written back at `later`. */
    method HandleQuery(msg: Message, now: nat, later: nat, env: Env) returns (r: Option<Message>)
      requires Valid()
      modifies cache.cache
      ensures msg.queries == [] ==> r.None? && cache.cache.inner == old(cache.cache.inner)
      ensures msg.queries != [] ==>
                var reply := ReplyTo(Config(), old(cache.cache.inner), now, env, msg);
                && r == Some(reply.response)
                && cache.cache.inner == Settled(Config(), old(cache.cache.inner), reply, later)
    {
      hide ReplyTo, WrittenBack, Hosts.Hosts.Valid, Rules.Valid, Balance.Balance.Valid;
      var ctx := Answer(msg, now, env);
      if ctx.None? {
        return None;
      }
      cache.WriteBack(ctx.value, later);
      r := ctx.value.response;
    }
  }

  // ---------------------------------------------------------------------------
  // Aliases
  // ---------------------------------------------------------------------------

  /** The hosts stage sends the query for `key` on under another name. */
  predicate IsRedirected(st: Stages, key: CacheKey) {
    Hosts.DirectIps(st.entries, key.name).None? && Hosts.Found(st.entries, key.name).Alias?
  }

  /** After an alias, question and answers carry the name the client asked for, if it parses,
      and the query's id; the cache is used under the name behind the alias. */
  lemma AliasIsPresentedAsAsked(st: Stages, slots: Slots, now: nat, env: Env, msg: Message)
    requires st.Valid() && msg.queries != []
    requires var key := KeyOf(st, msg.queries[0]); IsRedirected(st, key) && st.names.strict(key.name).Some?
    ensures var key, reply := KeyOf(st, msg.queries[0]), ReplyTo(st, slots, now, env, msg);
            var name := st.names.strict(key.name).value;
            && (forall i :: 0 <= i < |reply.response.answers| ==> reply.response.answers[i].owner == name)
            && (reply.response.queries != [] ==> reply.response.queries[0].name == name)
            && reply.response.id == msg.id
            && reply.key == CacheKey(Hosts.Found(st.entries, key.name).original, key.qtype)
  {
    hide Hosts.Found, Routed, HitResponse, Balance.BalancedAnswers;
  }

  /** The key under which a query reads the cache, if it gets that far. */
  function ReadKey(st: Stages, msg: Message): CacheKey
    requires msg.queries != []
  {
    Redirected(st, msg, KeyOf(st, msg.queries[0])).key
  }

  /** A query reads and writes the cache under one key only, the one behind the alias. */
  lemma CacheUsesOneKey(st: Stages, slots: Slots, other: Slots, now: nat, later: nat, env: Env, msg: Message,
                        key: CacheKey)
    requires st.Valid() && msg.queries != []
    requires Readable(slots, ReadKey(st, msg), now) == Readable(other, ReadKey(st, msg), now)
    ensures ReplyTo(st, slots, now, env, msg) == ReplyTo(st, other, now, env, msg)
    ensures var after := Settled(st, slots, ReplyTo(st, slots, now, env, msg), later);
            key != ReadKey(st, msg) ==>
              (key in after <==> key in slots) && (key in slots ==> after[key] == slots[key])
  {
    hide Hosts.Found, Routed, HitResponse, Balance.BalancedAnswers, Stored, Restored;
  }

  /** The name a question is asked under behind the hosts stage: an alias's original, else its own name in
      lower case without trailing dots. */
  function NameBehind(st: Stages, q: Question): string {
    var name := TrimEnd(st.lowerText(q.name), '.');
    match Hosts.Found(st.entries, name)
    case Alias(original) => original
    case _ => name
  }

  /** A reply is keyed by its question: by its type, and by its name behind hosts, or by its own name when
      hosts answer it. */
  lemma ReplyIsKeyedByQuestion(st: Stages, slots: Slots, now: nat, env: Env, msg: Message)
    requires st.Valid() && msg.queries != []
    ensures var q, reply := msg.queries[0], ReplyTo(st, slots, now, env, msg);
            var name := TrimEnd(st.lowerText(q.name), '.');
            && reply.key.qtype == q.qtype
            && reply.key.name == if Hosts.DirectIps(st.entries, name).Some? then name else NameBehind(st, q)
  {
    hide Hosts.Found, Hosts.DirectIps, Routed, HitResponse, Balance.BalancedAnswers, Restored, Readable;
  }

  /** Two questions read the same entry exactly when their types and their names behind hosts agree. */
  lemma SameEntryExactly(st: Stages, msg: Message, other: Message)
    requires msg.queries != [] && other.queries != []
    ensures ReadKey(st, msg) == ReadKey(st, other) <==>
              && msg.queries[0].qtype == other.queries[0].qtype
              && NameBehind(st, msg.queries[0]) == NameBehind(st, other.queries[0])
  {
    ReadsItsQuestion(st, msg);
    ReadsItsQuestion(st, other);
  }

  lemma ReadsItsQuestion(st: Stages, msg: Message)
    requires msg.queries != []
    ensures ReadKey(st, msg) == CacheKey(NameBehind(st, msg.queries[0]), msg.queries[0].qtype)
  {
    hide Hosts.Found;
  }

  // ---------------------------------------------------------------------------
  // What enters the cache
  // ---------------------------------------------------------------------------

  /** Only the actions of forward rules are labelled as forwards. */
  lemma ForwardLabels(names: Names, up: Upstreams, action: RuleAction, msg: Message, key: CacheKey,
                      captures: seq<string>)
    ensures IsForward(Applied(names, up, action, msg, key, captures).1) <==> action.Forward?
  {
    hide Poison, CnameAnswer, RewriteAnswer, Forwarded;
    match action {
      case Block(_) => assert "block"[0] == "block-nxdomain"[0] == "block-poison"[0] == 'b';
      case Cname(_, _, _, _) => assert "cname"[0] == 'c';
      case Rewrite(_, _) => assert "rewrite"[0] == 'r';
      case Forward(upstream, _, _, _) =>
        assert Labelled("forward-nodata", upstream)[..7] == "forward";
        assert Labelled("forward", upstream)[..7] == "forward";
        assert Labelled("forward-error", upstream)[..7] == "forward";
    }
  }

  /** The rule that answers query `r` on a miss, if any. */
  function AnsweringRule(st: Stages, r: Redirect): Option<RuleAction> {
    match Selected(st.rules, r.key.name, r.key.qtype, st.groupOf(r.key.name).group)
    case None => None
    case Some(i) => Some(st.rules[i].action)
  }

  /** The cache answers query `r`. */
  predicate IsHit(st: Stages, slots: Slots, now: nat, r: Redirect) {
    !st.groupOf(r.key.name).skipCache && Readable(slots, r.key, now).Some?
  }

  /** A reply is offered to the cache exactly when it came from the cache or from a forward rule and the
      group does not skip the cache. Answers of the hosts stage, of block, cname and rewrite rules, and
      NXDOMAIN for want of a rule are never. */
  lemma OfferedExactly(st: Stages, slots: Slots, now: nat, env: Env, msg: Message)
    requires st.Valid() && msg.queries != []
    ensures var key, reply := KeyOf(st, msg.queries[0]), ReplyTo(st, slots, now, env, msg);
            var r := Redirected(st, msg, key);
            !reply.skipCache && IsForward(reply.action) <==>
              && Hosts.DirectIps(st.entries, key.name).None? && !st.groupOf(r.key.name).skipCache
              && (IsHit(st, slots, now, r) || (AnsweringRule(st, r).Some? && AnsweringRule(st, r).value.Forward?))
  {
    hide Hosts.Found, HitResponse, Balance.BalancedAnswers, Restored, Redirected, Applied, Selected, SelectedCaptures;
    var r := Redirected(st, msg, KeyOf(st, msg.queries[0]));
    var entry := Readable(slots, r.key, now);
    assert "hosts"[0] == 'h' && "nxdomain"[0] == 'n';
    if IsHit(st, slots, now, r) {
      HitsAreForwards(entry.value);
    } else if AnsweringRule(st, r).Some? {
      var i := Selected(st.rules, r.key.name, r.key.qtype, st.groupOf(r.key.name).group);
      ForwardLabels(st.names, env.up, st.rules[i.value].action, r.msg, r.key,
        SelectedCaptures(st.rules, i, r.key.name, []));
    }
  }

  /** An empty answer stays empty on its way out. */
  lemma EmptyStaysEmpty(st: Stages, env: Env, response: Message, qtype: RecordType, skip: bool,
                        original: Option<string>)
    requires st.Valid() && response.answers == []
    ensures var out := Restored(st, Balanced(st, env, response, qtype, skip), original);
            out.answers == [] && out.rcode == response.rcode
  {
    hide Balance.Passed;
  }

  /** A query type that a forward rule denies is answered without asking upstream, and that empty answer
      is written back all the same. */
  lemma DeniedTypesAreCached(st: Stages, slots: Slots, now: nat, later: nat, env: Env, msg: Message)
    requires st.Valid() && msg.queries != []
    requires var key := KeyOf(st, msg.queries[0]); var r := Redirected(st, msg, key);
             && Hosts.DirectIps(st.entries, key.name).None?
             && Readable(slots, r.key, now).None? && !st.groupOf(r.key.name).skipCache
             && AnsweringRule(st, r).Some? && AnsweringRule(st, r).value.Forward?
             && r.key.qtype in AnsweringRule(st, r).value.denyQtypes
    ensures var reply := ReplyTo(st, slots, now, env, msg);
            && reply.key in Settled(st, slots, reply, later)
            && Settled(st, slots, reply, later)[reply.key] ==
               Slot(CacheEntry([NoDataMark], later, DEFAULT_TTL), later + Lifetime(st.cfg, DEFAULT_TTL))
  {
    hide Hosts.Found, HitResponse, Balance.BalancedAnswers, Restored, Redirected, Selected, SelectedCaptures, Readable;
    hide Hosts.DirectIps, Lifetime;
    var r := Redirected(st, msg, KeyOf(st, msg.queries[0]));
    var f := Fetched(st, slots, now, env.up, r);
    assert f.response == ResponseBase(r.msg);
    EmptyStaysEmpty(st, env, f.response, f.key.qtype, f.skipBalance, f.original);
    OfferedExactly(st, slots, now, env, msg);
  }
}
