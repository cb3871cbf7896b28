/**
 Which routing rule answers a query: the inline-domain index consulted first, and the
 in-order scan it is meant to shorten.
*/
module RuleSelection {
  import opened Wrappers
  import opened Text
  import opened SuffixTrie
  import opened Templates
  import opened Dns
  import opened Query
  import Decimal

  datatype MatchTarget =
    | MatchAll
    | Group(name: string)
    | InlineDomains(domains: seq<string>)
    | Template(patterns: seq<TemplatePattern>)

  datatype RuleAction =
    | Block(poison: bool)
    | Cname(target: string, ttl: nat, upstream: string, denyQtypes: seq<RecordType>)
    | Forward(upstream: string, ttlOverride: Option<nat>, denyQtypes: seq<RecordType>, resolveCname: bool)
    | Rewrite(target: string, ttl: nat)

  datatype Rule = Rule(target: MatchTarget, qtype: Option<RecordType>, action: RuleAction)

  predicate QtypeMatches(expected: Option<RecordType>, qtype: RecordType) {
    expected.None? || expected.value == TypeANY || expected.value == qtype
  }

  /** `domain` is `pattern` or a subdomain of it; trailing dots do not count. */
  predicate SuffixMatch(pattern: string, domain: string) {
    var p, d := TrimEnd(pattern, '.'), TrimEnd(domain, '.');
    d == p || EndsWith(d, "." + p)
  }

  function FirstCaptures(patterns: seq<TemplatePattern>, name: string): Option<seq<string>> {
    if patterns == [] then None
    else if Captures(patterns[0], name).Some? then Captures(patterns[0], name)
    else FirstCaptures(patterns[1..], name)
  }

  predicate TargetMatches(target: MatchTarget, name: string, group: Option<string>) {
    match target
    case MatchAll => true
    case Group(g) => group == Some(g)
    case InlineDomains(domains) => exists i :: 0 <= i < |domains| && SuffixMatch(domains[i], name)
    case Template(patterns) => FirstCaptures(patterns, name).Some?
  }

  predicate Matches(rule: Rule, name: string, qtype: RecordType, group: Option<string>) {
    QtypeMatches(rule.qtype, qtype) && TargetMatches(rule.target, name, group)
  }

  /** Index of the first matching rule at or after `from`. */
  function FirstMatch(rules: seq<Rule>, from: nat, name: string, qtype: RecordType,
                      group: Option<string>): (r: Option<nat>)
    requires from <= |rules|
    ensures r.Some? ==> from <= r.value < |rules| && Matches(rules[r.value], name, qtype, group)
    ensures forall j :: from <= j < (if r.Some? then r.value else |rules|) ==> !Matches(rules[j], name, qtype, group)
    decreases |rules| - from
  {
    if from == |rules| then None
    else if Matches(rules[from], name, qtype, group) then Some(from)
    else FirstMatch(rules, from + 1, name, qtype, group)
  }

  lemma FirstMatchIs(rules: seq<Rule>, name: string, qtype: RecordType, group: Option<string>, i: nat)
    requires i < |rules| && Matches(rules[i], name, qtype, group)
    requires forall j :: 0 <= j < i ==> !Matches(rules[j], name, qtype, group)
    ensures FirstMatch(rules, 0, name, qtype, group) == Some(i)
  {
    var r := FirstMatch(rules, 0, name, qtype, group);
    assert r.Some?;
    assert !(r.value < i) && !(i < r.value);
  }

  // ---------------------------------------------------------------------------
  // The inline-domain index
  // ---------------------------------------------------------------------------

  function AddDomains(table: map<string, string>, domains: seq<string>, tag: string): map<string, string> {
    if domains == [] then table
    else AddDomains(table, domains[..|domains| - 1], tag)[TrimDots(domains[|domains| - 1]) := tag]
  }

  /** The index over the first `n` rules: every inline domain with the printed index of its last owner. */
  function InlineTable(rules: seq<Rule>, n: nat): map<string, string>
    requires n <= |rules|
  {
    if n == 0 then map[] else
    var table := InlineTable(rules, n - 1);
    var target := rules[n - 1].target;
    if target.InlineDomains? then AddDomains(table, target.domains, Decimal.Print(n - 1)) else table
  }

  /** Indices of the inline rules among the first `n`, in order. */
  function InlineIndices(rules: seq<Rule>, n: nat): (r: seq<nat>)
    requires n <= |rules|
    ensures |r| <= n
    ensures forall i :: 0 <= i < |r| ==> i <= r[i] < n && rules[r[i]].target.InlineDomains?
    ensures forall i, j :: 0 <= i < j < |r| ==> r[i] < r[j]
  {
    if n == 0 then [] else
    var before := InlineIndices(rules, n - 1);
    if rules[n - 1].target.InlineDomains? then before + [n - 1] else before
  }

  /** The rule the fast path proposes: the tag found is used as a position in the list of inline rules. */
  function InlineHitOf(rules: seq<Rule>, name: string): (r: Option<nat>)
    ensures r.Some? ==> r.value < |rules| && rules[r.value].target.InlineDomains?
  {
    match LongestSuffixTag(InlineTable(rules, |rules|), SearchedName(name))
    case None => None
    case Some(tag) =>
      var indices := InlineIndices(rules, |rules|);
      match Decimal.Parse(tag, Decimal.USIZE_MAX)
      case None => None
      case Some(i) => if i < |indices| then Some(indices[i]) else None
  }

  /** The rule that is applied. */
  function Selected(rules: seq<Rule>, name: string, qtype: RecordType, group: Option<string>): (r: Option<nat>)
    ensures r.Some? ==> r.value < |rules|
  {
    var hit := InlineHitOf(rules, name);
    if hit.Some? && QtypeMatches(rules[hit.value].qtype, qtype) then hit
    else FirstMatch(rules, 0, name, qtype, group)
  }

  /** What applying rule `selected` leaves in the captures. */
  function SelectedCaptures(rules: seq<Rule>, selected: Option<nat>, name: string, before: seq<string>): seq<string>
  {
    if selected.Some? && selected.value < |rules| && rules[selected.value].target.Template? then
      var caps := FirstCaptures(rules[selected.value].target.patterns, name);
      if caps.Some? then caps.value else before
    else before
  }

  // ---------------------------------------------------------------------------
  // The stage
  // ---------------------------------------------------------------------------

  datatype InlineTrie = InlineTrie(trie: DomainSuffixTrie, tagToIdx: seq<nat>)

  method BuildInlineTrie(rules: seq<Rule>) returns (r: Option<InlineTrie>)
    ensures r.None? ==> InlineTable(rules, |rules|) == map[]
    ensures r.Some? ==> r.value.tagToIdx == InlineIndices(rules, |rules|)
    ensures r.Some? && |rules| <= TAG_LIMIT ==> r.value.trie.Represents(InlineTable(rules, |rules|))
  {
    hide Decimal.Print, TrimDots, DomainSuffixTrieBuilder.Valid;
    var builder := new DomainSuffixTrieBuilder();
    var tagToIdx: seq<nat> := [];
    var any := false;
    for idx := 0 to |rules|
      invariant builder.Valid() && fresh(builder)
      invariant builder.table == InlineTable(rules, idx) && tagToIdx == InlineIndices(rules, idx)
      invariant !any ==> builder.table == map[]
      invariant |builder.idToTag| <= idx
    {
      if rules[idx].target.InlineDomains? {
        any := true;
        var domains, tag := rules[idx].target.domains, Decimal.Print(idx);
        tagToIdx := tagToIdx + [idx];
        InsertAll(builder, domains, tag);
      }
    }
    if !any {
      return None;
    }
    var trie := builder.Build();
    r := Some(InlineTrie(trie, tagToIdx));
  }

  /** Inserting one rule's domains interns at most one new tag. */
  method InsertAll(builder: DomainSuffixTrieBuilder, domains: seq<string>, tag: string)
    requires builder.Valid()
    modifies builder
    ensures builder.Valid()
    ensures builder.table == AddDomains(old(builder.table), domains, tag)
    ensures |builder.idToTag| <= |old(builder.idToTag)| + 1
  {
    hide TrimDots, Interned, Indexed;
    for k := 0 to |domains|
      invariant builder.Valid()
      invariant builder.table == AddDomains(old(builder.table), domains[..k], tag)
      invariant |builder.idToTag| <= |old(builder.idToTag)| + 1
      invariant k > 0 ==> tag in builder.tagToId
      invariant k == 0 ==> |builder.idToTag| == |old(builder.idToTag)|
    {
      assert domains[..k + 1][..k] == domains[..k];
      builder.Insert(domains[k], tag);
    }
    assert domains[..|domains|] == domains;
  }

  class Rules {
    const rules: seq<Rule>
    const inlineTrie: Option<InlineTrie>

    ghost predicate Valid() {
      && (inlineTrie.None? ==> InlineTable(rules, |rules|) == map[])
      && (inlineTrie.Some? ==> inlineTrie.value.trie.Represents(InlineTable(rules, |rules|))
                               && inlineTrie.value.tagToIdx == InlineIndices(rules, |rules|))
    }

    constructor (rules: seq<Rule>)
      ensures this.rules == rules
      ensures |rules| <= TAG_LIMIT ==> Valid()
    {
      var index := BuildInlineTrie(rules);
      this.rules, inlineTrie := rules, index;
    }

    method InlineHit(domain: string) returns (r: Option<nat>)
      requires Valid()
      ensures r == InlineHitOf(rules, domain)
    {
      if inlineTrie.None? {
        EmptyTableMisses(SearchedName(domain));
        return None;
      }
      var tag := inlineTrie.value.trie.Lookup(domain, InlineTable(rules, |rules|));
      if tag.None? {
        return None;
      }
      var i := Decimal.Parse(tag.value, Decimal.USIZE_MAX);
      if i.None? || i.value >= |inlineTrie.value.tagToIdx| {
        return None;
      }
      r := Some(inlineTrie.value.tagToIdx[i.value]);
    }

    /** Whether `rule` answers the query; a matching template leaves its captures in the context. */
    method RuleMatches(rule: Rule, ctx: QueryContext) returns (hit: bool)
      modifies ctx`captures
      ensures hit == Matches(rule, ctx.key.name, ctx.key.qtype, ctx.group)
      ensures !hit ==> ctx.captures == old(ctx.captures)
      ensures hit ==> ctx.captures == SelectedCaptures([rule], Some(0), ctx.key.name, old(ctx.captures))
      ensures Decides(rule, ctx.key.name, ctx.key.qtype, ctx.group, hit, old(ctx.captures), ctx.captures)
    {
      hide Decides, SuffixMatch;
      MatchDecides(rule, ctx.key.name, ctx.key.qtype, ctx.group, ctx.captures);
      if !QtypeMatches(rule.qtype, ctx.key.qtype) {
        return false;
      }
      var domain := ctx.key.name;
      match rule.target {
        case MatchAll => hit := true;
        case Group(name) => hit := ctx.group == Some(name);
        case InlineDomains(domains) => hit := exists i :: 0 <= i < |domains| && SuffixMatch(domains[i], domain);
        case Template(patterns) =>
          assert patterns[0..] == patterns;
          for k := 0 to |patterns|
            invariant ctx.captures == old(ctx.captures)
            invariant FirstCaptures(patterns, domain) == FirstCaptures(patterns[k..], domain)
          {
            assert patterns[k..][1..] == patterns[k + 1..];
            var caps := TemplateMatch(patterns[k], domain);
            if caps.Some? {
              ctx.captures := caps.value;
              return true;
            }
          }
          hit := false;
      }
    }

    /** The rule `handle` goes on to apply, if any. */
    method Select(ctx: QueryContext) returns (r: Option<nat>)
      requires Valid()
      modifies ctx`captures
      ensures r == Selected(rules, ctx.key.name, ctx.key.qtype, ctx.group)
      ensures r.Some? ==> r.value < |rules|
      ensures ctx.captures == SelectedCaptures(rules, r, ctx.key.name, old(ctx.captures))
    {
      hide Matches, InlineHitOf, FirstMatch, FirstCaptures, Valid;
      var domain := ctx.key.name;
      var hit := InlineHit(domain);
      if hit.Some? && QtypeMatches(rules[hit.value].qtype, ctx.key.qtype) {
        return hit;
      }
      for i := 0 to |rules|
        invariant ctx.captures == old(ctx.captures)
        invariant forall j :: 0 <= j < i ==> !Matches(rules[j], domain, ctx.key.qtype, ctx.group)
      {
        var matched := RuleMatches(rules[i], ctx);
        if matched {
          FirstMatchIs(rules, domain, ctx.key.qtype, ctx.group, i);
          return Some(i);
        }
      }
      r := None;
    }
  }

  /** `captures` is what the first matching pattern captures. */
  ghost predicate FirstGives(patterns: seq<TemplatePattern>, name: string, captures: seq<string>) {
    exists i :: 0 <= i < |patterns| && Captures(patterns[i], name) == Some(captures)
                && forall j :: 0 <= j < i ==> Captures(patterns[j], name).None?
  }

  lemma {:induction false} FirstCapturesMeaning(patterns: seq<TemplatePattern>, name: string)
    ensures FirstCaptures(patterns, name).Some? <==> exists p <- patterns :: Captures(p, name).Some?
    ensures FirstCaptures(patterns, name).Some? ==> FirstGives(patterns, name, FirstCaptures(patterns, name).value)
  {
    hide Captures;
    if patterns != [] && Captures(patterns[0], name).None? {
      FirstCapturesMeaning(patterns[1..], name);
      if FirstCaptures(patterns, name).Some? {
        var captures := FirstCaptures(patterns, name).value;
        var i :| 0 <= i < |patterns[1..]| && Captures(patterns[1..][i], name) == Some(captures)
                 && forall j :: 0 <= j < i ==> Captures(patterns[1..][j], name).None?;
        assert forall j :: 1 <= j < i + 1 ==> patterns[1..][j - 1] == patterns[j];
        assert Captures(patterns[i + 1], name) == Some(captures);
      }
    }
  }

  /** The rule has no type, the type ANY, or the type of the query. */
  predicate HasType(rule: Rule, qtype: RecordType) {
    rule.qtype == None || rule.qtype == Some(TypeANY) || rule.qtype == Some(qtype)
  }

  /** `hit` says whether the target is hit: always, by the query's group, by a domain the name ends in, or by
      a pattern. */
  ghost predicate HitsTarget(target: MatchTarget, name: string, group: Option<string>, hit: bool) {
    && (target.MatchAll? ==> hit)
    && (target.Group? ==> (hit <==> group == Some(target.name)))
    && (target.InlineDomains? ==> (hit <==> exists d <- target.domains :: SuffixMatch(d, name)))
    && (target.Template? ==> (hit <==> exists p <- target.patterns :: Captures(p, name).Some?))
  }

  /** A rule matches exactly when it fits the type and its target is hit. */
  lemma MatchesExactly(rule: Rule, name: string, qtype: RecordType, group: Option<string>)
    ensures Matches(rule, name, qtype, group) ==> HasType(rule, qtype)
    ensures HasType(rule, qtype) ==> HitsTarget(rule.target, name, group, Matches(rule, name, qtype, group))
  {
    hide SuffixMatch, Captures, FirstCaptures;
    match rule.target {
      case Template(patterns) => FirstCapturesMeaning(patterns, name);
      case InlineDomains(domains) =>
        forall d | d in domains && SuffixMatch(d, name)
          ensures exists i :: 0 <= i < |domains| && SuffixMatch(domains[i], name)
        {
          var i :| 0 <= i < |domains| && domains[i] == d;
        }
      case _ =>
    }
  }

  /** The outcome for a rule: it hits when it fits the type and its target is hit; then a template leaves what
      its first matching pattern captures, and everything else leaves the captures alone. */
  ghost predicate Decides(rule: Rule, name: string, qtype: RecordType, group: Option<string>, hit: bool,
                          before: seq<string>, after: seq<string>) {
    && (hit ==> HasType(rule, qtype))
    && (HasType(rule, qtype) ==> HitsTarget(rule.target, name, group, hit))
    && (if hit && rule.target.Template? then FirstGives(rule.target.patterns, name, after) else after == before)
  }

  lemma MatchDecides(rule: Rule, name: string, qtype: RecordType, group: Option<string>, before: seq<string>)
    ensures var hit := Matches(rule, name, qtype, group);
            Decides(rule, name, qtype, group, hit, before,
                    if hit then SelectedCaptures([rule], Some(0), name, before) else before)
  {
    hide HasType, HitsTarget, FirstGives, FirstCaptures;
    MatchesExactly(rule, name, qtype, group);
    if rule.target.Template? {
      FirstCapturesMeaning(rule.target.patterns, name);
    }
  }

  /** A group rule that is applied is the first of its type for the query's group; among group rules, the first
      such rule is applied, and none exactly when there is no such rule. */
  lemma GroupRuleSelection(rules: seq<Rule>, name: string, qtype: RecordType, group: Option<string>)
    ensures var r := Selected(rules, name, qtype, group);
            && (r.Some? && rules[r.value].target.Group? ==>
                  && HasType(rules[r.value], qtype) && group == Some(rules[r.value].target.name)
                  && NoneFor(rules[..r.value], qtype, group))
            && (r.None? ==> NoneFor(rules, qtype, group))
    ensures (forall rule <- rules :: rule.target.Group?) ==>
              (Selected(rules, name, qtype, group).None? <==> NoneFor(rules, qtype, group))
  {
    hide InlineHitOf, FirstMatch, Matches, QtypeMatches;
    var r, first := Selected(rules, name, qtype, group), FirstMatch(rules, 0, name, qtype, group);
    assert r == first || (r.Some? && rules[r.value].target.InlineDomains?);
    forall rule: Rule | rule.target.Group?
      ensures Matches(rule, name, qtype, group) <==> HasType(rule, qtype) && group == Some(rule.target.name)
    {
      MatchesExactly(rule, name, qtype, group);
    }
    if first.Some? {
      assert forall j :: 0 <= j < first.value ==> rules[..first.value][j] == rules[j];
    }
  }

  /** No group rule of a fitting type is for the query's group. */
  predicate NoneFor(rules: seq<Rule>, qtype: RecordType, group: Option<string>) {
    forall rule <- rules :: rule.target.Group? && HasType(rule, qtype) ==> group != Some(rule.target.name)
  }

  lemma EmptyTableMisses(d: string)
    ensures LongestSuffixTag<string>(map[], d) == None
  {
    LongestSuffixTagMeaning<string>(map[], d);
  }
}
