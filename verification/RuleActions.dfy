/** What a routing rule does with a query: block, alias, forward, or rewrite. */
module RuleActions {
  import opened Wrappers
  import opened Templates
  import opened Dns
  import opened Query
  import opened CnameChain
  import opened RuleSelection

  type NameParser = string -> Option<Name>

  /** Name and address conversions of the wire library. Lookups of a hosts alias use the strict
      parser; names of records use the lenient one. */
  datatype Names = Names(strict: NameParser, parse: NameParser, text: Name -> string, same: SameName,
                         parseV4: string -> Option<nat>)

  /** What an upstream answers, if it answers. */
  type Ask = (string, Message) -> Option<Message>

  /** The upstreams during one query: `ask` for the query itself, `askAgain` for a CNAME's target. */
  datatype Upstreams = Upstreams(ask: Ask, askAgain: Ask)

  const POISON_TTL: nat := 300

  function QueryFor(name: Name, qtype: RecordType): Message {
    Message(0, NoError, [Question(name, qtype)], [])
  }

  function FirstName(msg: Message): Name {
    if msg.queries == [] then Name([]) else msg.queries[0].name
  }

  // ---------------------------------------------------------------------------
  // Changing all answers
  // ---------------------------------------------------------------------------

  function WithTtl(answers: seq<Record>, ttl: nat): (r: seq<Record>)
    ensures |r| == |answers|
  {
    seq(|answers|, i requires 0 <= i < |answers| => answers[i].(ttl := ttl))
  }

  function OwnedBy(answers: seq<Record>, owner: Name): (r: seq<Record>)
    ensures |r| == |answers|
  {
    seq(|answers|, i requires 0 <= i < |answers| => answers[i].(owner := owner))
  }

  method RewriteTtl(msg: Message, ttl: nat) returns (r: Message)
    ensures r == msg.(answers := WithTtl(msg.answers, ttl))
  {
    r := msg;
    for i := 0 to |msg.answers|
      invariant r == msg.(answers := r.answers) && |r.answers| == |msg.answers|
      invariant forall k :: 0 <= k < i ==> r.answers[k] == msg.answers[k].(ttl := ttl)
      invariant forall k :: i <= k < |msg.answers| ==> r.answers[k] == msg.answers[k]
    {
      r := r.(answers := r.answers[i := r.answers[i].(ttl := ttl)]);
    }
  }

  method OwnAnswers(msg: Message, owner: Name) returns (r: Message)
    ensures r == msg.(answers := OwnedBy(msg.answers, owner))
  {
    r := msg;
    for i := 0 to |msg.answers|
      invariant r == msg.(answers := r.answers) && |r.answers| == |msg.answers|
      invariant forall k :: 0 <= k < i ==> r.answers[k] == msg.answers[k].(owner := owner)
      invariant forall k :: i <= k < |msg.answers| ==> r.answers[k] == msg.answers[k]
    {
      r := r.(answers := r.answers[i := r.answers[i].(owner := owner)]);
    }
  }

  // ---------------------------------------------------------------------------
  // The four actions
  // ---------------------------------------------------------------------------

  /** An unspecified address of the queried family; None when the name does not parse. */
  function Poison(names: Names, msg: Message, key: CacheKey): Option<Message> {
    match names.parse(key.name)
    case None => None
    case Some(owner) =>
      var v4 := if key.qtype.TypeA? || key.qtype.TypeANY? then [Record(owner, POISON_TTL, A(0))] else [];
      var v6 := if key.qtype.TypeAAAA? || key.qtype.TypeANY? then [Record(owner, POISON_TTL, AAAA(0))] else [];
      Some(ResponseBase(msg).(answers := v4 + v6))
  }

  /** The address the template gives for the captures; None when it is none or the name does not parse. */
  function RewriteAnswer(names: Names, msg: Message, key: CacheKey, target: string, captures: seq<string>,
                         ttl: nat): Option<Message> {
    if msg.queries == [] || !(msg.queries[0].qtype.TypeA? || msg.queries[0].qtype.TypeANY?) then Some(ResponseBase(msg))
    else
      var ip, owner := names.parseV4(Substituted(target, captures)), names.parse(key.name);
      if ip.None? || owner.None? then None
      else Some(ResponseBase(msg).(answers := [Record(owner.value, ttl, A(ip.value))]))
  }

  /** The target's records under the queried name, or the CNAME alone when upstream fails. */
  function CnameAnswer(names: Names, up: Upstreams, msg: Message, key: CacheKey, captures: seq<string>,
                       target: string, ttl: nat, upstream: string, deny: seq<RecordType>): Option<Message> {
    if key.qtype in deny then Some(ResponseBase(msg))
    else match names.parse(Substituted(target, captures))
      case None => None
      case Some(name) =>
        match up.ask(upstream, QueryFor(name, key.qtype))
        case None => Some(ResponseBase(msg).(answers := [Record(FirstName(msg), ttl, CNAME(name))]))
        case Some(r) => Some(r.(id := msg.id, queries := msg.queries, answers := OwnedBy(r.answers, FirstName(msg))))
  }

  /** Asking for the target of an unfinished CNAME chain. */
  function FollowupTo(names: Names, up: Upstreams, upstream: string, answers: seq<Record>,
                      qtype: RecordType): Followup {
    var idx := LastCnameIndex(answers);
    if idx.None? then Failed else
    match names.parse(names.text(answers[idx.value].data.target))
    case None => Failed
    case Some(name) =>
      match up.askAgain(upstream, QueryFor(name, qtype))
      case None => Failed
      case Some(response) => Resolved(response)
  }

  /** Upstream's response with CNAMEs resolved and TTLs overridden as the rule asks. */
  function Forwarded(names: Names, up: Upstreams, msg: Message, key: CacheKey, upstream: string,
                     ttlOverride: Option<nat>, resolveCname: bool): Option<Message> {
    match up.ask(upstream, msg)
    case None => None
    case Some(response) =>
      var followup := FollowupTo(names, up, upstream, response.answers, key.qtype);
      var answers := if resolveCname then ResolvedAnswers(names.same, response.answers, FirstName(msg), followup)
                     else response.answers;
      Some(response.(answers := if ttlOverride.Some? then WithTtl(answers, ttlOverride.value) else answers))
  }

  function Labelled(kind: string, upstream: string): string {
    kind + "(" + upstream + ")"
  }

  /** The response and the action label a rule leaves behind. */
  function Applied(names: Names, up: Upstreams, action: RuleAction, msg: Message, key: CacheKey,
                   captures: seq<string>): (Message, string)
  {
    match action
    case Block(poison) =>
      if !poison then (ResponseBase(msg).(rcode := NXDomain), "block-nxdomain") else
      (match Poison(names, msg, key)
       case Some(r) => (r, "block-poison")
       case None => (ServFailFor(msg), "block"))
    case Cname(target, ttl, upstream, deny) =>
      (match CnameAnswer(names, up, msg, key, captures, target, ttl, upstream, deny)
       case Some(r) => (r, "cname")
       case None => (ServFailFor(msg), "cname"))
    case Forward(upstream, ttlOverride, deny, resolveCname) =>
      if key.qtype in deny then (ResponseBase(msg), Labelled("forward-nodata", upstream)) else
      (match Forwarded(names, up, msg, key, upstream, ttlOverride, resolveCname)
       case Some(r) => (r, Labelled("forward", upstream))
       case None => (ServFailFor(msg), Labelled("forward-error", upstream)))
    case Rewrite(target, ttl) =>
      (match RewriteAnswer(names, msg, key, target, captures, ttl)
       case Some(r) => (r, "rewrite")
       case None => (ServFailFor(msg), "rewrite"))
  }

  /** What a cname rule promises of its answer: nothing for a denied type; the CNAME alone when upstream
      fails; otherwise upstream's records and response code, in order with data and TTLs unchanged, under
      the query's id, question and name. */
  predicate CnamePromise(names: Names, up: Upstreams, msg: Message, key: CacheKey, target: string, action: RuleAction,
                         r: Message)
    requires action.Cname?
  {
    if key.qtype in action.denyQtypes then r.answers == [] && r.rcode == NoError && r.id == msg.id
    else
      && names.parse(target).Some? && r.id == msg.id
      && var name := names.parse(target).value;
         match up.ask(action.upstream, QueryFor(name, key.qtype))
         case None => r.rcode == NoError && r.answers == [Record(FirstName(msg), action.ttl, CNAME(name))]
         case Some(response) =>
           && r.rcode == response.rcode && r.queries == msg.queries && |r.answers| == |response.answers|
           && forall i :: 0 <= i < |r.answers| ==>
               SameRecord(r.answers[i], response.answers[i], None, Some(FirstName(msg)))
  }

  /** `r` has the data of `from`; its TTL and owner are replaced where `ttl` and `owner` say so. */
  predicate SameRecord(r: Record, from: Record, ttl: Option<nat>, owner: Option<Name>) {
    && r.data == from.data
    && r.ttl == (if ttl.Some? then ttl.value else from.ttl)
    && r.owner == (if owner.Some? then owner.value else from.owner)
  }

  /** The CNAME chain is followed: it is unfinished and upstream answers for its target with an address first. */
  predicate Follows(names: Names, up: Upstreams, key: CacheKey, action: RuleAction, answers: seq<Record>)
    requires action.Forward?
  {
    && action.resolveCname && LastCnameIndex(answers).Some? && !CnameChain.Completed(names.same, answers)
    && var followup := FollowupTo(names, up, action.upstream, answers, key.qtype);
       followup.Resolved? && followup.response.answers != [] && IsAddress(followup.response.answers[0])
  }

  /** The addresses upstream gave for the target. */
  function TargetAddresses(names: Names, up: Upstreams, key: CacheKey, action: RuleAction,
                           answers: seq<Record>): seq<Record>
    requires action.Forward? && Follows(names, up, key, action, answers)
  {
    AddressesOf(FollowupTo(names, up, action.upstream, answers, key.qtype).response.answers)
  }

  /** What a forward rule promises of upstream's response. Response code, id and question are upstream's.
      The records are, in order, the target's addresses under the queried name when the chain is followed;
      otherwise upstream's own records, without the leading chain and with renamed addresses when that
      chain was complete. Their data is untouched, and so are their TTLs unless the rule overrides all. */
  predicate ForwardPromise(names: Names, up: Upstreams, msg: Message, key: CacheKey, action: RuleAction,
                           response: Message, r: Message)
    requires action.Forward?
  {
    && r == response.(answers := r.answers)
    && ForwardedRecords(names, up, msg, key, action, action.ttlOverride, response.answers, r.answers)
  }

  predicate ForwardedRecords(names: Names, up: Upstreams, msg: Message, key: CacheKey, action: RuleAction,
                             ttl: Option<nat>, before: seq<Record>, after: seq<Record>)
    requires action.Forward?
  {
    if Follows(names, up, key, action, before) then
      var addresses := TargetAddresses(names, up, key, action, before);
      && after != [] && |after| == |addresses|
      && forall i :: 0 <= i < |after| ==>
          IsAddress(after[i]) && SameRecord(after[i], addresses[i], ttl, Some(FirstName(msg)))
    else
      var collapsed := action.resolveCname && CnameChain.Completed(names.same, before);
      var n := if collapsed then CnameRun(before) else 0;
      && |after| == |before| - n
      && forall i :: 0 <= i < |after| ==>
                       SameRecord(after[i], before[n + i], ttl,
                                  if collapsed && IsAddress(before[n + i]) then Some(FirstName(msg)) else None)
  }

  lemma ResolvingKeepsRecords(names: Names, up: Upstreams, msg: Message, key: CacheKey, action: RuleAction,
                              answers: seq<Record>)
    requires action.Forward? && action.resolveCname
    ensures var followup := FollowupTo(names, up, action.upstream, answers, key.qtype);
            ForwardedRecords(names, up, msg, key, action, None, answers,
                             ResolvedAnswers(names.same, answers, FirstName(msg), followup))
  {
    hide FollowupTo, LastCnameIndex, CnameChain.Completed, Addresses, AddressesOf, CnameRun;
    var followup := FollowupTo(names, up, action.upstream, answers, key.qtype);
    if CnameChain.Completed(names.same, answers) {
      CompletedHasChain(names.same, answers);
      CollapseMeaning(names.same, answers, FirstName(msg), followup);
    } else {
      IncompleteMeaning(names.same, answers, FirstName(msg), followup);
    }
  }

  lemma OverrideKeepsRecords(names: Names, up: Upstreams, msg: Message, key: CacheKey, action: RuleAction, ttl: nat,
                             before: seq<Record>, after: seq<Record>)
    requires action.Forward? && ForwardedRecords(names, up, msg, key, action, None, before, after)
    ensures ForwardedRecords(names, up, msg, key, action, Some(ttl), before, WithTtl(after, ttl))
  {
    hide FollowupTo, LastCnameIndex, CnameChain.Completed, Addresses, AddressesOf, CnameRun, Follows;
  }

  lemma ForwardKeepsPromise(names: Names, up: Upstreams, msg: Message, key: CacheKey, action: RuleAction)
    requires action.Forward? && up.ask(action.upstream, msg).Some?
    ensures var r := Forwarded(names, up, msg, key, action.upstream, action.ttlOverride, action.resolveCname);
            r.Some? && ForwardPromise(names, up, msg, key, action, up.ask(action.upstream, msg).value, r.value)
  {
    hide FollowupTo, ForwardedRecords, ResolvedAnswers;
    var before := up.ask(action.upstream, msg).value.answers;
    var followup := FollowupTo(names, up, action.upstream, before, key.qtype);
    var after := if action.resolveCname then ResolvedAnswers(names.same, before, FirstName(msg), followup) else before;
    if action.resolveCname {
      ResolvingKeepsRecords(names, up, msg, key, action, before);
    } else {
      NothingResolved(names, up, msg, key, action, before);
    }
    if action.ttlOverride.Some? {
      OverrideKeepsRecords(names, up, msg, key, action, action.ttlOverride.value, before, after);
    }
  }

  lemma NothingResolved(names: Names, up: Upstreams, msg: Message, key: CacheKey, action: RuleAction,
                        answers: seq<Record>)
    requires action.Forward? && !action.resolveCname
    ensures ForwardedRecords(names, up, msg, key, action, None, answers, answers)
  {
  }

  lemma CompletedHasChain(same: SameName, answers: seq<Record>)
    requires CnameChain.Completed(same, answers)
    ensures LastCnameIndex(answers).Some?
  {
  }

  method HandleCname(names: Names, up: Upstreams, ctx: QueryContext, action: RuleAction) returns (r: Option<Message>)
    requires action.Cname?
    ensures r == CnameAnswer(names, up, ctx.msg, ctx.key, ctx.captures, action.target, action.ttl,
                             action.upstream, action.denyQtypes)
    ensures r.Some? ==>
              CnamePromise(names, up, ctx.msg, ctx.key, Substituted(action.target, ctx.captures), action, r.value)
    ensures r.None? <==>
            ctx.key.qtype !in action.denyQtypes && names.parse(Substituted(action.target, ctx.captures)).None?
  {
    hide Substituted;
    if ctx.key.qtype in action.denyQtypes {
      return Some(ResponseBase(ctx.msg));
    }
    var target := SubstitutePlaceholders(action.target, ctx.captures);
    var queryName := FirstName(ctx.msg);
    var name := names.parse(target);
    if name.None? {
      return None;
    }
    var response := up.ask(action.upstream, QueryFor(name.value, ctx.key.qtype));
    if response.None? {
      return Some(ResponseBase(ctx.msg).(answers := [Record(queryName, action.ttl, CNAME(name.value))]));
    }
    var owned := OwnAnswers(response.value.(id := ctx.msg.id, queries := ctx.msg.queries), queryName);
    r := Some(owned);
  }

  /** Asks upstream and leaves its response in the context; false when upstream fails. */
  method ForwardQuery(names: Names, up: Upstreams, ctx: QueryContext, action: RuleAction) returns (ok: bool)
    requires action.Forward?
    modifies ctx`response
    ensures var r := Forwarded(names, up, ctx.msg, ctx.key, action.upstream, action.ttlOverride, action.resolveCname);
            ok == r.Some? && ctx.response == if ok then r else old(ctx.response)
    ensures ok <==> up.ask(action.upstream, ctx.msg).Some?
    ensures ok ==>
              var upstream := up.ask(action.upstream, ctx.msg).value;
              ForwardPromise(names, up, ctx.msg, ctx.key, action, upstream, ctx.response.value)
  {
    hide ResolvedAnswers, FollowupTo, ForwardPromise;
    if up.ask(action.upstream, ctx.msg).Some? {
      ForwardKeepsPromise(names, up, ctx.msg, ctx.key, action);
    }
    var response := up.ask(action.upstream, ctx.msg);
    if response.None? {
      return false;
    }
    var resp := response.value;
    if action.resolveCname {
      var followup := FollowupTo(names, up, action.upstream, resp.answers, ctx.key.qtype);
      var answers := ResolveCnames(names.same, resp.answers, FirstName(ctx.msg), followup);
      resp := resp.(answers := answers);
    }
    if action.ttlOverride.Some? {
      resp := RewriteTtl(resp, action.ttlOverride.value);
    }
    ctx.response := Some(resp);
    ok := true;
  }

  /** Applies a rule; it always leaves a response. */
  method ApplyRule(names: Names, up: Upstreams, ctx: QueryContext, rule: Rule)
    modifies ctx`response, ctx`action
    ensures var applied := Applied(names, up, rule.action, ctx.msg, ctx.key, ctx.captures);
            ctx.response == Some(applied.0) && ctx.action == applied.1
  {
    hide Poison, CnameAnswer, RewriteAnswer, Forwarded, Labelled;
    match rule.action {
      case Block(poison) =>
        if !poison {
          ctx.response, ctx.action := Some(ResponseBase(ctx.msg).(rcode := NXDomain)), "block-nxdomain";
        } else {
          var r := Poison(names, ctx.msg, ctx.key);
          ctx.action := if r.Some? then "block-poison" else "block";
          ctx.response := if r.Some? then r else Some(ServFailFor(ctx.msg));
        }
      case Cname(_, _, _, _) =>
        var r := HandleCname(names, up, ctx, rule.action);
        ctx.response, ctx.action := if r.Some? then r else Some(ServFailFor(ctx.msg)), "cname";
      case Forward(upstream, _, deny, _) =>
        if ctx.key.qtype in deny {
          ctx.response, ctx.action := Some(ResponseBase(ctx.msg)), Labelled("forward-nodata", upstream);
        } else {
          ctx.action := Labelled("forward", upstream);
          var ok := ForwardQuery(names, up, ctx, rule.action);
          if !ok {
            ctx.response, ctx.action := Some(ServFailFor(ctx.msg)), Labelled("forward-error", upstream);
          }
        }
      case Rewrite(target, ttl) =>
        ctx.action := "rewrite";
        var r := RewriteAnswer(names, ctx.msg, ctx.key, target, ctx.captures, ttl);
        ctx.response := if r.Some? then r else Some(ServFailFor(ctx.msg));
    }
  }

  // ---------------------------------------------------------------------------
  // The stage
  // ---------------------------------------------------------------------------

  /** What the rules stage answers: the selected rule's response, or NXDOMAIN. */
  function Routed(names: Names, up: Upstreams, rules: seq<Rule>, msg: Message, key: CacheKey,
                  group: Option<string>): (Message, string)
  {
    match Selected(rules, key.name, key.qtype, group)
    case None => (ResponseBase(msg).(rcode := NXDomain), "nxdomain")
    case Some(i) =>
      Applied(names, up, rules[i].action, msg, key, SelectedCaptures(rules, Some(i), key.name, []))
  }

  method HandleRules(names: Names, up: Upstreams, rules: Rules, ctx: QueryContext)
    requires rules.Valid() && ctx.captures == []
    modifies ctx`response, ctx`action, ctx`captures
    ensures var routed := Routed(names, up, rules.rules, ctx.msg, ctx.key, ctx.group);
            ctx.response == Some(routed.0) && ctx.action == routed.1
  {
    hide Selected, SelectedCaptures, Applied, Rules.Valid;
    var selected := rules.Select(ctx);
    if selected.Some? {
      ApplyRule(names, up, ctx, rules.rules[selected.value]);
    } else {
      ctx.response, ctx.action := Some(ResponseBase(ctx.msg).(rcode := NXDomain)), "nxdomain";
    }
  }

  /** The rule answers by itself: upstream is not asked, or does not answer. */
  predicate AnswersItself(up: Upstreams, action: RuleAction, msg: Message, key: CacheKey) {
    action.Forward? ==> key.qtype in action.denyQtypes || up.ask(action.upstream, msg).None?
  }

  /** Unless it passes an upstream response on, a rule's answer is for the query: its id, its question,
      and its name on every record, spelled as in the question by cname rules and as in the key by
      block and rewrite rules. */
  lemma OwnAnswersAreForTheQuery(names: Names, up: Upstreams, action: RuleAction, msg: Message, key: CacheKey,
                                 captures: seq<string>)
    requires AnswersItself(up, action, msg, key) && msg.queries != []
    ensures var r := Applied(names, up, action, msg, key, captures).0;
            && r.id == msg.id && r.queries != [] && r.queries[0] == msg.queries[0]
            && forall i :: 0 <= i < |r.answers| ==>
                             if action.Cname? then r.answers[i].owner == msg.queries[0].name
                             else names.parse(key.name) == Some(r.answers[i].owner)
  {
    hide Substituted;
    match action {
      case Block(poison) =>
      case Cname(target, ttl, upstream, deny) =>
      case Forward(upstream, ttlOverride, deny, resolveCname) =>
      case Rewrite(target, ttl) =>
    }
  }

  /** A blocked query gets NXDOMAIN without answers, or for a poisoned name unspecified addresses only: one of
      each family the type asks for, with a TTL of 300. */
  lemma BlockedAnswers(names: Names, up: Upstreams, poison: bool, msg: Message, key: CacheKey, captures: seq<string>)
    requires names.parse(key.name).Some?
    ensures var r := Applied(names, up, Block(poison), msg, key, captures).0; var owner := names.parse(key.name).value;
            && (!poison ==> r.rcode == NXDomain && r.answers == [])
            && (poison ==>
                  && r.rcode == NoError
                  && var v4, v6 := Record(owner, 300, A(0)), Record(owner, 300, AAAA(0));
                     multiset(r.answers) ==
                       (if key.qtype in {TypeA, TypeANY} then multiset{v4} else multiset{})
                       + (if key.qtype in {TypeAAAA, TypeANY} then multiset{v6} else multiset{}))
  {
  }

  /** A rewritten query gets the address its template gives, with the rule's TTL, when it asks for IPv4 addresses
      or for anything; otherwise nothing, without an error. */
  lemma RewrittenAnswers(names: Names, up: Upstreams, target: string, ttl: nat, msg: Message, key: CacheKey,
                         captures: seq<string>)
    requires msg.queries != []
    ensures var r := Applied(names, up, Rewrite(target, ttl), msg, key, captures).0;
            var ip, owner := names.parseV4(Substituted(target, captures)), names.parse(key.name);
            if msg.queries[0].qtype !in {TypeA, TypeANY} then r.rcode == NoError && r.answers == []
            else ip.Some? && owner.Some? ==>
                   r.rcode == NoError && r.answers == [Record(owner.value, ttl, A(ip.value))]
  {
    hide Substituted;
  }

  /** A denied type is answered without records and without an error. */
  lemma DeniedAnswers(names: Names, up: Upstreams, action: RuleAction, msg: Message, key: CacheKey,
                      captures: seq<string>)
    requires (action.Cname? || action.Forward?) && key.qtype in action.denyQtypes
    ensures var r := Applied(names, up, action, msg, key, captures).0; r.rcode == NoError && r.answers == []
  {
  }

  /** Without a rule for it, a query gets NXDOMAIN without answers; otherwise the selected rule answers it, with
      the captures of its first matching pattern, or none. */
  lemma RoutedAnswers(names: Names, up: Upstreams, rules: seq<Rule>, msg: Message, key: CacheKey,
                      group: Option<string>)
    ensures var i, r := Selected(rules, key.name, key.qtype, group), Routed(names, up, rules, msg, key, group).0;
            && (i.None? ==> r.rcode == NXDomain && r.answers == [] && r.id == msg.id)
            && (i.Some? ==>
                  exists captures ::
                    && r == Applied(names, up, rules[i.value].action, msg, key, captures).0
                    && if rules[i.value].target.Template?
                       then FirstGives(rules[i.value].target.patterns, key.name, captures) else captures == [])
  {
    hide Selected, Applied, FirstGives, FirstCaptures, Matches;
    var i := Selected(rules, key.name, key.qtype, group);
    if i.Some? {
      var target := rules[i.value].target;
      if target.Template? {
        SelectedMatches(rules, key.name, key.qtype, group);
        FirstCapturesMeaning(target.patterns, key.name);
      }
    }
  }

  /** Only rules with inline domains are ever selected without matching. */
  lemma SelectedMatches(rules: seq<Rule>, name: string, qtype: RecordType, group: Option<string>)
    ensures var i := Selected(rules, name, qtype, group);
            i.Some? && rules[i.value].target.Template? ==> FirstCaptures(rules[i.value].target.patterns, name).Some?
  {
    hide InlineHitOf, FirstMatch, FirstCaptures;
  }

  /** The action label tells what happened: which rule answered, and for a forward which upstream it names and
      whether the type was denied, upstream answered, or it did not. */
  lemma LabelTells(names: Names, up: Upstreams, action: RuleAction, msg: Message, key: CacheKey, captures: seq<string>)
    ensures var said := Applied(names, up, action, msg, key, captures).1;
            && (action.Forward? ==>
                  var kind := if key.qtype in action.denyQtypes then "forward-nodata"
                              else if up.ask(action.upstream, msg).Some? then "forward" else "forward-error";
                  said == kind + "(" + action.upstream + ")")
            && (action.Block? ==>
                  said == if !action.poison then "block-nxdomain"
                           else if names.parse(key.name).Some? then "block-poison" else "block")
            && (action.Cname? ==> said == "cname")
            && (action.Rewrite? ==> said == "rewrite")
  {
    hide CnameAnswer, RewriteAnswer, FollowupTo, ResolvedAnswers;
  }

  /** The followed CNAME is the last of the chain at the front: upstream is asked for its target. */
  lemma FollowupAsksForTarget(names: Names, up: Upstreams, upstream: string, answers: seq<Record>, qtype: RecordType,
                              n: nat)
    requires 0 < n && IsChain(answers, n)
    ensures var target := names.parse(names.text(answers[n - 1].data.target));
            FollowupTo(names, up, upstream, answers, qtype) ==
              if target.None? then Failed
              else
                var reply := up.askAgain(upstream, Message(0, NoError, [Question(target.value, qtype)], []));
                if reply.None? then Failed else Resolved(reply.value)
  {
    ChainLength(answers, n);
  }

  /** The name or the rule's target does not parse, or the upstream of a forward does not answer. */
  predicate Fails(names: Names, action: RuleAction, key: CacheKey, captures: seq<string>) {
    match action
    case Block(poison) => poison && names.parse(key.name).None?
    case Cname(target, _, _, deny) => key.qtype !in deny && names.parse(Substituted(target, captures)).None?
    case Forward(_, _, deny, _) => key.qtype !in deny
    case Rewrite(target, _) =>
      && (key.qtype.TypeA? || key.qtype.TypeANY?)
      && (names.parseV4(Substituted(target, captures)).None? || names.parse(key.name).None?)
  }

  /** An answer that does not come from upstream is SERVFAIL exactly when something it needs is missing. */
  lemma FailsExactly(names: Names, up: Upstreams, action: RuleAction, msg: Message, key: CacheKey,
                     captures: seq<string>)
    requires AnswersItself(up, action, msg, key) && msg.queries != [] && msg.queries[0].qtype == key.qtype
    requires action.Cname? && names.parse(Substituted(action.target, captures)).Some? ==>
               up.ask(action.upstream,
                 QueryFor(names.parse(Substituted(action.target, captures)).value, key.qtype)).None?
    ensures Applied(names, up, action, msg, key, captures).0.rcode == ServFail <==> Fails(names, action, key, captures)
  {
    hide Substituted;
  }
}
