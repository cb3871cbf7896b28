/**
 When the inline-domain index answers as the in-order scan would, and when it does not.
*/
module RuleRefinement {
  import opened Wrappers
  import opened Text
  import opened SuffixTrie
  import opened Templates
  import opened Dns
  import opened RuleSelection
  import Decimal

  /** What parsing the configuration guarantees about targets. */
  predicate WellFormedTarget(target: MatchTarget) {
    match target
    case InlineDomains(domains) => domains != [] && forall i :: 0 <= i < |domains| ==> ValidDomain(domains[i])
    case Template(patterns) => patterns != [] && forall i :: 0 <= i < |patterns| ==> WellFormed(patterns[i])
    case _ => true
  }

  predicate WellFormedRules(rules: seq<Rule>) {
    && |rules| <= TAG_LIMIT
    && forall i :: 0 <= i < |rules| ==> WellFormedTarget(rules[i].target)
  }

  /** Rule `r` lists `p`. */
  predicate Lists(rules: seq<Rule>, r: int, p: string) {
    0 <= r < |rules| && rules[r].target.InlineDomains? && p in rules[r].target.domains
  }

  /** `r` is the last rule listing `p`. */
  ghost predicate Owns(rules: seq<Rule>, r: int, p: string) {
    Lists(rules, r, p) && forall q :: r < q < |rules| ==> !Lists(rules, q, p)
  }

  /** Some query type satisfies both restrictions. */
  predicate Overlap(q1: Option<RecordType>, q2: Option<RecordType>) {
    q1.None? || q2.None? || q1.value == TypeANY || q2.value == TypeANY || q1 == q2
  }

  /** `p` is the longest listed domain that `name` falls under. */
  ghost predicate LongestListed(rules: seq<Rule>, name: string, p: string) {
    && (exists r :: Lists(rules, r, p)) && LabelSuffix(p, name)
    && forall r, q :: Lists(rules, r, q) && LabelSuffix(q, name) ==> |q| <= |p|
  }

  /** The name fits the buffer, or the valid domains it falls under have no upper-case letters. */
  ghost predicate ReadsAlike(name: string) {
    || |TrimDots(name)| <= BUFFER_SIZE
    || forall q :: ValidDomain(q) && LabelSuffix(q, TrimDots(name)) ==> NoUpper(q)
  }

  /** The names a statement is about: those that read alike, or only the lower-case ones among them. */
  ghost predicate InScope(lower: bool, name: string) {
    ReadsAlike(name) && (lower ==> NoUpper(name))
  }

  /** Some name in scope whose longest listed domain is `p` can satisfy `target`. */
  ghost predicate MayMatchUnder(rules: seq<Rule>, lower: bool, target: MatchTarget, p: string) {
    match target
    case MatchAll => true
    case Group(_) => true
    case InlineDomains(domains) => exists d :: d in domains && LabelSuffix(d, p)
    case Template(patterns) => exists t :: t in patterns && MayCaptureUnder(rules, lower, t.suffix, p)
  }

  ghost predicate MayCaptureUnder(rules: seq<Rule>, lower: bool, suffix: string, p: string) {
    || LabelSuffix(suffix, p)
    || (LabelSuffix(p, suffix) && (lower ==> NoUpper(suffix)) && LongestListed(rules, suffix, p))
  }

  /** The rule the fast path proposes for listed domain `p` owned by rule `r` is the right one. */
  ghost predicate ProposalSafe(rules: seq<Rule>, lower: bool, r: int, p: string) {
    var indices := InlineIndices(rules, |rules|);
    0 <= r < |indices| ==>
      var i := indices[r];
      && (exists d :: d in rules[i].target.domains && LabelSuffix(d, p))
      && forall j :: 0 <= j < i && Overlap(rules[j].qtype, rules[i].qtype) ==>
          !MayMatchUnder(rules, lower, rules[j].target, p)
  }

  /** The condition on a configuration under which the index never changes the outcome. */
  ghost predicate SafeRules(rules: seq<Rule>, lower: bool) {
    forall r, p :: Owns(rules, r, p) && (lower ==> NoUpper(p)) ==> ProposalSafe(rules, lower, r, p)
  }

  /** The index and the scan pick the same rule for `name`, whatever the query type and group. */
  ghost predicate RefinesOn(rules: seq<Rule>, name: string) {
    forall qtype, group :: Selected(rules, name, qtype, group) == FirstMatch(rules, 0, name, qtype, group)
  }

  /** They do so for every name in scope. */
  ghost predicate IndexRefinesScan(rules: seq<Rule>, lower: bool) {
    forall name :: InScope(lower, name) ==> RefinesOn(rules, name)
  }

  /** Domains with upper-case letters leave room, within the buffer, for the labels a template asks for. */
  ghost predicate Fitting(rules: seq<Rule>) {
    && (forall r, p :: Lists(rules, r, p) ==> Fits(p, 0))
    && (forall i, t :: 0 <= i < |rules| && rules[i].target.Template? && t in rules[i].target.patterns ==>
          FitsTemplate(rules, t))
  }

  ghost predicate FitsTemplate(rules: seq<Rule>, t: TemplatePattern) {
    Fits(t.suffix, Largest(t.placeholders)) && forall r, p :: Lists(rules, r, p) ==> Fits(p, Largest(t.placeholders))
  }

  predicate Fits(x: string, labels: nat) {
    NoUpper(x) || |x| + 2 * labels <= BUFFER_SIZE
  }

  // ---------------------------------------------------------------------------
  // What the index holds
  // ---------------------------------------------------------------------------

  lemma {:induction false} AddDomainsMeaning(table: map<string, string>, domains: seq<string>, tag: string)
    requires forall i :: 0 <= i < |domains| ==> ValidDomain(domains[i])
    ensures AddDomains(table, domains, tag).Keys == table.Keys + set d | d in domains
    ensures forall p :: p in domains ==> AddDomains(table, domains, tag)[p] == tag
    ensures forall p :: p in table && p !in domains ==> AddDomains(table, domains, tag)[p] == table[p]
  {
    hide ValidDomain, TrimDots;
    if domains != [] {
      var n := |domains| - 1;
      AddDomainsMeaning(table, domains[..n], tag);
      ValidDomainIsTrimmed(domains[n]);
      assert domains == domains[..n] + [domains[n]];
    }
  }

  lemma ValidDomainIsTrimmed(p: string)
    requires ValidDomain(p)
    ensures TrimDots(p) == p && p != ""
  {
    TrimDotsKeeps(p);
  }

  lemma {:induction false} InlineTableKeys(rules: seq<Rule>, n: nat)
    requires WellFormedRules(rules) && n <= |rules|
    ensures forall p :: p in InlineTable(rules, n) <==> exists r :: r < n && Lists(rules, r, p)
  {
    hide ValidDomain, AddDomains, Decimal.Print;
    if n > 0 {
      InlineTableKeys(rules, n - 1);
      var before, target := InlineTable(rules, n - 1), rules[n - 1].target;
      if target.InlineDomains? {
        AddDomainsMeaning(before, target.domains, Decimal.Print(n - 1));
      }
      forall p | p in InlineTable(rules, n) ensures exists r :: r < n && Lists(rules, r, p) {
        if p !in before {
          assert Lists(rules, n - 1, p);
        }
      }
    }
  }

  lemma {:induction false} InlineTableTag(rules: seq<Rule>, n: nat, p: string, r: nat)
    requires WellFormedRules(rules) && n <= |rules|
    requires r < n && Lists(rules, r, p) && forall q :: r < q < n ==> !Lists(rules, q, p)
    ensures p in InlineTable(rules, n) && InlineTable(rules, n)[p] == Decimal.Print(r)
  {
    hide ValidDomain, AddDomains, Decimal.Print;
    var before, target := InlineTable(rules, n - 1), rules[n - 1].target;
    if target.InlineDomains? {
      AddDomainsMeaning(before, target.domains, Decimal.Print(n - 1));
    }
    if r < n - 1 {
      InlineTableTag(rules, n - 1, p, r);
      assert !Lists(rules, n - 1, p);
    }
  }

  lemma {:induction false} LastOwner(rules: seq<Rule>, p: string, n: nat) returns (r: nat)
    requires n <= |rules| && exists q :: q < n && Lists(rules, q, p)
    requires forall q :: n <= q < |rules| ==> !Lists(rules, q, p)
    ensures r < n && Owns(rules, r, p)
  {
    if Lists(rules, n - 1, p) {
      r := n - 1;
    } else {
      r := LastOwner(rules, p, n - 1);
    }
  }

  /** A listed domain has one owner, whose printed index is its tag. */
  lemma OwnerTag(rules: seq<Rule>, r: nat, p: string)
    requires WellFormedRules(rules) && Owns(rules, r, p)
    ensures p != "" && p in InlineTable(rules, |rules|) && ValidDomain(p)
    ensures InlineTable(rules, |rules|)[p] == Decimal.Print(r)
    ensures Decimal.Parse(Decimal.Print(r), Decimal.USIZE_MAX) == Some(r)
  {
    hide Decimal.Print, Decimal.Parse, InlineTable;
    InlineTableTag(rules, |rules|, p, r);
    Decimal.ParsePrint(r, Decimal.USIZE_MAX);
    var k :| 0 <= k < |rules[r].target.domains| && rules[r].target.domains[k] == p;
  }

  /** The proposal for a name is determined by its longest listed domain. */
  lemma HitOf(rules: seq<Rule>, name: string, r: nat, p: string)
    requires WellFormedRules(rules) && ReadsAlike(name)
    requires LongestListed(rules, TrimDots(name), p) && Owns(rules, r, p)
    ensures InlineHitOf(rules, name) ==
            if r < |InlineIndices(rules, |rules|)| then Some(InlineIndices(rules, |rules|)[r]) else None
  {
    hide Decimal.Print, Decimal.Parse, InlineTable, LabelSuffix, LongestSuffixTag, TrimDots, SearchedName, ValidDomain;
    var table, d := InlineTable(rules, |rules|), SearchedName(name);
    InlineTableKeys(rules, |rules|);
    OwnerTag(rules, r, p);
    SameSuffixes(name, p);
    forall q | q in table && LabelSuffix(q, d) ensures |q| <= |p| {
      var o :| o < |rules| && Lists(rules, o, q);
      ListedIsValid(rules, o, q);
      SameSuffixes(name, q);
    }
    assert IsLongest(table, d, p);
    LongestSuffixTagIs(table, d, p);
  }

  lemma ListedIsValid(rules: seq<Rule>, r: nat, p: string)
    requires WellFormedRules(rules) && Lists(rules, r, p)
    ensures ValidDomain(p)
  {
    hide ValidDomain;
    var k :| 0 <= k < |rules[r].target.domains| && rules[r].target.domains[k] == p;
  }

  /** Lower-case names, and names that fit the buffer, read alike. */
  lemma UnfoldedReadsAlike(name: string)
    requires NoUpper(name) || |TrimDots(name)| <= BUFFER_SIZE
    ensures ReadsAlike(name)
  {
    hide TrimDots, ValidDomain, LabelSuffix, NoUpper;
    if NoUpper(name) {
      LowerTrimmed(name);
      forall q | LabelSuffix(q, TrimDots(name)) ensures NoUpper(q) {
        SuffixHasNoUpper(q, TrimDots(name));
      }
    }
  }

  lemma LowerTrimmed(name: string)
    requires NoUpper(name)
    ensures NoUpper(TrimDots(name))
  {
    hide TrimDots;
    var d := TrimDots(name);
    forall i | 0 <= i < |d| ensures !('A' <= d[i] <= 'Z') {
      assert d[i] in d;
    }
  }

  /** The index reads such a name as the scan does: the valid domains it falls under are those of the
      name searched, which is in lower case when the name does not fit the buffer. */
  lemma SameSuffixes(name: string, q: string)
    requires ReadsAlike(name) && ValidDomain(q)
    ensures LabelSuffix(q, SearchedName(name)) <==> LabelSuffix(q, TrimDots(name))
  {
    hide ValidDomain, TrimDots, LabelSuffix, NoUpper, ToLower;
    var d := TrimDots(name);
    if |d| > BUFFER_SIZE {
      if LabelSuffix(q, ToLower(d)) {
        LowerOfSuffix(q, d);
        var p := d[|d| - |q|..];
        LowerWasValid(p);
        ToLowerKeeps(p);
      }
      if LabelSuffix(q, d) {
        ToLowerKeeps(q);
        LowerSuffix(q, d);
      }
    }
  }

  /** Conversely, a name that does not read alike is taken for one under another domain. */
  lemma Misread(name: string) returns (q: string)
    requires !ReadsAlike(name)
    ensures ValidDomain(q) && LabelSuffix(q, SearchedName(name)) && !LabelSuffix(q, TrimDots(name))
  {
    hide ValidDomain, TrimDots, NoUpper;
    var d := TrimDots(name);
    var p :| ValidDomain(p) && LabelSuffix(p, d) && !NoUpper(p);
    q := ToLower(p);
    LowerIsValid(p);
    LowerSuffix(p, d);
    LowerChanges(p);
  }

  lemma LowerChanges(p: string)
    requires !NoUpper(p)
    ensures ToLower(p) != p
  {
    var i :| 0 <= i < |p| && 'A' <= p[i] <= 'Z';
    assert ToLower(p)[i] != p[i];
  }

  lemma LowerOfSuffix(q: string, d: string)
    requires LabelSuffix(q, ToLower(d))
    ensures |q| <= |d| && LabelSuffix(d[|d| - |q|..], d) && q == ToLower(d[|d| - |q|..])
  {
    assert ToLower(d)[|d| - |q|..] == ToLower(d[|d| - |q|..]);
  }

  lemma LowerWasValid(p: string)
    requires ValidDomain(ToLower(p))
    ensures ValidDomain(p)
  {
    hide IsLabelChar;
    SplitLower(p);
    var parts, lower := Split(p, '.'), Split(ToLower(p), '.');
    forall i | 0 <= i < |parts| ensures ValidLabel(parts[i]) {
      LabelWasValid(parts[i]);
    }
    assert p != "" && p[0] != '.' && p[|p| - 1] != '.' by {
      assert ToLower(p)[0] != '.' && ToLower(p)[|p| - 1] != '.';
    }
  }

  lemma LabelWasValid(part: string)
    requires ValidLabel(ToLower(part))
    ensures ValidLabel(part)
  {
    forall i | 0 <= i < |part| ensures IsLabelChar(part[i]) {
      assert IsLabelChar(ToLower(part)[i]);
    }
    assert ToLower(part)[0] != '-';
  }

  lemma LowerSuffix(q: string, d: string)
    requires LabelSuffix(q, d)
    ensures LabelSuffix(ToLower(q), ToLower(d))
  {
    assert ToLower(d)[|d| - |q|..] == ToLower(d[|d| - |q|..]);
  }

  lemma {:induction false} SplitLower(s: string)
    ensures |Split(ToLower(s), '.')| == |Split(s, '.')|
    ensures forall i :: 0 <= i < |Split(s, '.')| ==> Split(ToLower(s), '.')[i] == ToLower(Split(s, '.')[i])
    decreases |s|
  {
    var i := IndexOf(s, '.');
    assert '.' !in ToLower(s)[..i] by {
      forall k | 0 <= k < i ensures ToLower(s)[k] != '.' {
        assert s[k] == s[..i][k];
      }
    }
    IndexOfIs(ToLower(s), '.', i);
    assert ToLower(s)[..i] == ToLower(s[..i]);
    if i < |s| {
      assert ToLower(s)[i + 1..] == ToLower(s[i + 1..]);
      SplitLower(s[i + 1..]);
    }
  }

  lemma LowerIsValid(q: string)
    requires ValidDomain(q)
    ensures ValidDomain(ToLower(q))
  {
    SplitLower(q);
    var parts, lower := Split(q, '.'), Split(ToLower(q), '.');
    forall l | l in lower ensures ValidLabel(l) {
      var i :| 0 <= i < |lower| && lower[i] == l;
      assert parts[i] in parts;
      LowerLabelIsValid(parts[i]);
    }
  }

  lemma LowerLabelIsValid(part: string)
    requires ValidLabel(part)
    ensures ValidLabel(ToLower(part))
  {
  }

  lemma SuffixHasNoUpper(p: string, d: string)
    requires LabelSuffix(p, d) && NoUpper(d)
    ensures NoUpper(p)
  {
    assert forall i :: 0 <= i < |p| ==> p[i] == d[|d| - |p| + i];
  }

  /** Conversely, a proposal comes from the longest listed domain. */
  lemma HitComesFrom(rules: seq<Rule>, name: string) returns (r: nat, p: string)
    requires WellFormedRules(rules) && ReadsAlike(name) && InlineHitOf(rules, name).Some?
    ensures LongestListed(rules, TrimDots(name), p) && Owns(rules, r, p) && (NoUpper(name) ==> NoUpper(p))
    ensures r < |InlineIndices(rules, |rules|)| && InlineHitOf(rules, name) == Some(InlineIndices(rules, |rules|)[r])
  {
    hide Decimal.Print, Decimal.Parse, InlineTable, LongestSuffixTag, TrimDots, LabelSuffix, NoUpper, WellFormedRules;
    hide SearchedName, ValidDomain, ReadsAlike;
    var table, d := InlineTable(rules, |rules|), SearchedName(name);
    InlineTableKeys(rules, |rules|);
    LongestSuffixTagMeaning(table, d);
    p :| IsLongest(table, d, p) && table[p] == LongestSuffixTag(table, d).value;
    r := LastOwner(rules, p, |rules|);
    ListedIsValid(rules, r, p);
    SameSuffixes(name, p);
    if NoUpper(name) {
      LowerTrimmed(name);
      SuffixHasNoUpper(p, TrimDots(name));
    }
    forall o, q | Lists(rules, o, q) && LabelSuffix(q, TrimDots(name)) ensures |q| <= |p| {
      assert q in table;
      ListedIsValid(rules, o, q);
      SameSuffixes(name, q);
    }
    HitOf(rules, name, r, p);
  }

  // ---------------------------------------------------------------------------
  // Matching in terms of label suffixes
  // ---------------------------------------------------------------------------

  lemma TrimEndKeepsLeadingDots(s: string) returns (dots: string)
    ensures TrimEnd(s, '.') == if TrimDots(s) == "" then "" else dots + TrimDots(s)
    ensures forall i :: 0 <= i < |dots| ==> dots[i] == '.'
  {
    hide TrimEnd, TrimStart;
    var x, y := TrimStart(s, '.'), TrimDots(s);
    dots := s[..|s| - |x|];
    assert s == dots + x;
    if y == "" {
      TrimEndIs(s, '.', "");
    } else {
      TrimEndIs(s, '.', dots + y);
    }
  }

  /** For a valid domain, dots in front of the name make no difference. */
  lemma SuffixOfTrimmed(p: string, name: string)
    requires ValidDomain(p)
    ensures LabelSuffix(p, TrimEnd(name, '.')) <==> LabelSuffix(p, TrimDots(name))
  {
    hide ValidDomain, TrimEnd, TrimDots;
    ValidDomainIsTrimmed(p);
    ValidDomainEdges(p);
    var dots := TrimEndKeepsLeadingDots(name);
    DotsInFront(p, dots, TrimDots(name));
  }

  lemma ValidDomainEdges(p: string)
    requires ValidDomain(p)
    ensures Plain(p)
  {
  }

  lemma DotsInFront(p: string, dots: string, d: string)
    requires p != "" && p[0] != '.' && forall i :: 0 <= i < |dots| ==> dots[i] == '.'
    ensures LabelSuffix(p, dots + d) <==> LabelSuffix(p, d)
  {
    var whole := dots + d;
    if |p| <= |d| {
      assert whole[|whole| - |p|..] == d[|d| - |p|..];
    } else if |p| <= |whole| {
      assert whole[|whole| - |p|..][0] == dots[|whole| - |p|];
    }
  }

  lemma SuffixMatchMeaning(p: string, name: string)
    requires ValidDomain(p)
    ensures SuffixMatch(p, name) <==> LabelSuffix(p, TrimDots(name))
  {
    hide ValidDomain, TrimEnd, TrimDots, LabelSuffix, EndsWith;
    SuffixIsTrimmed(p);
    SuffixOfTrimmed(p, name);
    EndsWithLabel(p, TrimEnd(name, '.'));
  }

  lemma EndsWithLabel(p: string, d: string)
    ensures LabelSuffix(p, d) <==> d == p || EndsWith(d, "." + p)
  {
    if LabelSuffix(p, d) && |p| < |d| {
      LabelSuffixParts(p, d);
      assert d[|d| - |p| - 1..] == "." + p;
    }
    if EndsWith(d, "." + p) {
      assert d[|d| - |p|..] == d[|d| - |p| - 1..][1..];
      assert d[|d| - |p| - 1] == (d[|d| - |p| - 1..])[0];
    }
  }

  /** A captured name falls under the suffix. */
  lemma CapturedFallsUnder(t: TemplatePattern, name: string)
    requires WellFormed(t) && Captures(t, name).Some?
    ensures LabelSuffix(t.suffix, TrimDots(name))
  {
    hide Captures, ValidDomain;
    var captures := Captures(t, name).value;
    CapturesMeaning(t, name, captures);
    var labels :| LabelsBefore(t, name, labels) && CapturesAre(t, labels, captures);
    SuffixIsTrimmed(t.suffix);
    LabelSuffixAfter(Join(labels, '.') + ".", t.suffix);
    SuffixOfTrimmed(t.suffix, name);
  }

  // ---------------------------------------------------------------------------
  // Safe configurations: the index refines the scan
  // ---------------------------------------------------------------------------

  /** A rule that matches a name may match under that name's longest listed domain. */
  lemma MatchIsPossible(rules: seq<Rule>, lower: bool, j: nat, name: string, group: Option<string>, p: string)
    requires WellFormedRules(rules) && j < |rules| && (lower ==> NoUpper(name))
    requires TargetMatches(rules[j].target, name, group)
    requires LongestListed(rules, TrimDots(name), p)
    ensures MayMatchUnder(rules, lower, rules[j].target, p)
  {
    hide Captures, ValidDomain, TrimDots, SuffixMatch, FirstCaptures, LabelSuffix, NoUpper, MayCaptureUnder;
    var d := TrimDots(name);
    match rules[j].target {
      case InlineDomains(domains) =>
        var i :| 0 <= i < |domains| && SuffixMatch(domains[i], name);
        SuffixMatchMeaning(domains[i], name);
        assert Lists(rules, j, domains[i]);
        LabelSuffixesNest(domains[i], p, d);
      case Template(patterns) =>
        FirstCapturesMeaning(patterns, name);
        var t :| t in patterns && Captures(t, name).Some?;
        var k :| 0 <= k < |patterns| && patterns[k] == t;
        CapturedFallsUnder(t, name);
        if lower {
          LowerTrimmed(name);
        }
        CaptureIsPossible(rules, lower, t.suffix, d, p);
      case _ =>
    }
  }

  lemma CaptureIsPossible(rules: seq<Rule>, lower: bool, suffix: string, d: string, p: string)
    requires LabelSuffix(suffix, d) && (lower ==> NoUpper(d)) && LongestListed(rules, d, p)
    ensures MayCaptureUnder(rules, lower, suffix, p)
  {
    hide LabelSuffix, NoUpper;
    if |suffix| <= |p| {
      LabelSuffixesNest(suffix, p, d);
    } else {
      LabelSuffixesNest(p, suffix, d);
      if lower {
        SuffixHasNoUpper(suffix, d);
      }
      forall r, q | Lists(rules, r, q) && LabelSuffix(q, suffix) ensures |q| <= |p| {
        LabelSuffixTransitive(q, suffix, d);
      }
    }
  }

  lemma SafeImpliesRefines(rules: seq<Rule>, lower: bool)
    requires WellFormedRules(rules) && SafeRules(rules, lower)
    ensures IndexRefinesScan(rules, lower)
  {
    hide SafeRules, InScope;
    forall name | InScope(lower, name) ensures RefinesOn(rules, name) {
      forall qtype, group ensures Selected(rules, name, qtype, group) == FirstMatch(rules, 0, name, qtype, group) {
        SafeSelection(rules, lower, name, qtype, group);
      }
    }
  }

  lemma SafeSelection(rules: seq<Rule>, lower: bool, name: string, qtype: RecordType, group: Option<string>)
    requires WellFormedRules(rules) && SafeRules(rules, lower) && InScope(lower, name)
    ensures Selected(rules, name, qtype, group) == FirstMatch(rules, 0, name, qtype, group)
  {
    hide ReadsAlike;
    hide Captures, ValidDomain, TrimDots, SuffixMatch, FirstCaptures, InlineHitOf, MayMatchUnder, LabelSuffix;
    var hit := InlineHitOf(rules, name);
    if hit.Some? && QtypeMatches(rules[hit.value].qtype, qtype) {
      var r, p := HitComesFrom(rules, name);
      var i := hit.value;
      assert ProposalSafe(rules, lower, r, p);
      var d :| d in rules[i].target.domains && LabelSuffix(d, p);
      var k :| 0 <= k < |rules[i].target.domains| && rules[i].target.domains[k] == d;
      LabelSuffixTransitive(d, p, TrimDots(name));
      SuffixMatchMeaning(d, name);
      forall j | 0 <= j < i ensures !Matches(rules[j], name, qtype, group) {
        if TargetMatches(rules[j].target, name, group) {
          MatchIsPossible(rules, lower, j, name, group, p);
        }
      }
      FirstMatchIs(rules, name, qtype, group, i);
    }
  }

  // ---------------------------------------------------------------------------
  // Unsafe configurations: a query on which the index and the scan differ
  // ---------------------------------------------------------------------------

  /** A label that no valid domain contains. */
  const FRESH: string := "!"

  function Padded(z: string, m: nat, x: string): string {
    if m == 0 then x else z + "." + Padded(z, m - 1, x)
  }

  predicate Plain(s: string) {
    s != "" && s[0] != '.' && s[|s| - 1] != '.'
  }

  lemma PlainIsTrimmed(s: string)
    requires Plain(s)
    ensures TrimDots(s) == s && TrimEnd(s, '.') == s
  {
    TrimDotsKeeps(s);
    TrimEndKeeps(s, '.');
  }

  lemma {:induction false} PaddedIsPlain(z: string, m: nat, x: string)
    requires '.' !in z && z != "" && Plain(x)
    ensures Plain(Padded(z, m, x))
    ensures NoUpper(z) && NoUpper(x) ==> NoUpper(Padded(z, m, x))
  {
    if m > 0 {
      PaddedIsPlain(z, m - 1, x);
      assert z[0] in z;
    }
  }

  lemma {:induction false} PaddedKeepsSuffixes(m: nat, x: string)
    ensures LabelSuffix(x, Padded(FRESH, m, x)) && |Padded(FRESH, m, x)| == |x| + 2 * m
    ensures forall q :: ValidDomain(q) && LabelSuffix(q, Padded(FRESH, m, x)) ==> LabelSuffix(q, x)
  {
    hide LabelSuffix, ValidDomain;
    var name := Padded(FRESH, m, x);
    if m == 0 {
      WholeIsSuffix(x);
    } else {
      var rest := Padded(FRESH, m - 1, x);
      PaddedKeepsSuffixes(m - 1, x);
      LabelSuffixAfter(FRESH + ".", rest);
      LabelSuffixTransitive(x, rest, name);
      forall q | ValidDomain(q) && LabelSuffix(q, name) ensures LabelSuffix(q, x) {
        ValidSuffixSkipsLabel(q, rest);
      }
    }
  }

  lemma ValidSuffixSkipsLabel(q: string, rest: string)
    requires ValidDomain(q) && LabelSuffix(q, FRESH + "." + rest)
    ensures LabelSuffix(q, rest)
  {
    hide ValidDomain;
    var name := FRESH + "." + rest;
    ValidDomainEdges(q);
    ValidDomainIsPlainText(q);
    assert |q| <= |rest| by {
      assert q[0] == name[|name| - |q|] && q[0] in q;
    }
    assert name[|name| - |q|..] == rest[|rest| - |q|..];
    if |q| < |rest| {
      assert name[|name| - |q| - 1] == rest[|rest| - |q| - 1];
    }
  }

  /** Padding does not bring in longer listed domains, and the name stays in scope. */
  lemma PaddedLongest(rules: seq<Rule>, lower: bool, m: nat, x: string, p: string)
    requires WellFormedRules(rules) && LongestListed(rules, x, p) && Plain(x)
    requires if lower then NoUpper(x) else Fits(x, m)
    ensures var name := Padded(FRESH, m, x);
            InScope(lower, name) && TrimDots(name) == name && LongestListed(rules, name, p)
  {
    hide TrimDots, NoUpper, LabelSuffix, Padded, ReadsAlike, ValidDomain;
    var name := Padded(FRESH, m, x);
    assert NoUpper(FRESH) by {
      LowerFresh();
    }
    PaddedIsPlain(FRESH, m, x);
    PlainIsTrimmed(name);
    PaddedKeepsSuffixes(m, x);
    LabelSuffixTransitive(p, x, name);
    UnfoldedReadsAlike(name);
    forall r, q | Lists(rules, r, q) && LabelSuffix(q, name) ensures |q| <= |p| {
      ListedIsValid(rules, r, q);
    }
  }

  lemma LowerFresh()
    ensures NoUpper(FRESH)
  {
  }

  /** A listed domain is its own longest listed domain. */
  lemma ListedIsLongest(rules: seq<Rule>, r: nat, p: string)
    requires Lists(rules, r, p)
    ensures LongestListed(rules, p, p)
  {
  }

  lemma {:induction false} PaddedLabels(z: string, m: nat, labels: seq<string>, suffix: string)
    requires '.' !in z
    ensures var all := Repeated(z, m) + labels;
            labels + Repeated(z, m) != [] ==>
              Padded(z, m, if labels == [] then suffix else Join(labels, '.') + "." + suffix)
              == Join(all, '.') + "." + suffix
  {
    var all := Repeated(z, m) + labels;
    if m == 0 {
      assert all == labels;
    } else {
      PaddedLabels(z, m - 1, labels, suffix);
      var rest := Repeated(z, m - 1) + labels;
      assert all == [z] + rest;
      if rest == [] {
        JoinOne(z, '.');
        assert labels == [];
      } else {
        assert labels + Repeated(z, m - 1) != [];
        assert all[1..] == rest;
      }
    }
  }

  function Repeated(z: string, m: nat): (r: seq<string>)
    ensures |r| == m && forall i :: 0 <= i < m ==> r[i] == z
  {
    if m == 0 then [] else [z] + Repeated(z, m - 1)
  }

  /** Enough padding in front of a name under the suffix makes the pattern match. */
  lemma PaddedIsCaptured(t: TemplatePattern, z: string, x: string)
    requires WellFormed(t) && LabelSuffix(t.suffix, x)
    requires z != "" && '.' !in z
    requires Plain(x)
    requires |x| == |t.suffix| || ValidDomain(x)
    ensures Captures(t, Padded(z, Largest(t.placeholders), x)).Some?
  {
    hide Captures, Join, Padded, TrimEnd, ValidDomain, CapturesAre, Largest, LabelsBefore;
    hide LabelSuffix, TrimDots, NoUpper, Repeated;
    var m, name := Largest(t.placeholders), Padded(z, Largest(t.placeholders), x);
    var inner := InnerLabels(t.suffix, x);
    PaddedLabels(z, m, inner, t.suffix);
    var labels := Repeated(z, m) + inner;
    assert 1 <= t.placeholders[0] <= m;
    PaddedIsPlain(z, m, x);
    PlainIsTrimmed(name);
    SuffixIsTrimmed(t.suffix);
    PaddingIsNotEmpty(z, m, inner);
    IsLabelsBefore(t, name, labels);
    var captures := AllCaptured(t, labels);
    CapturesMeaning(t, name, captures);
  }

  lemma PaddingIsNotEmpty(z: string, m: nat, inner: seq<string>)
    requires z != "" && '.' !in z && forall l :: l in inner ==> l != "" && '.' !in l
    ensures forall l :: l in Repeated(z, m) + inner ==> l != "" && '.' !in l
  {
  }

  lemma IsLabelsBefore(t: TemplatePattern, name: string, labels: seq<string>)
    requires labels != [] && forall l :: l in labels ==> l != "" && '.' !in l
    requires TrimEnd(name, '.') == Join(labels, '.') + "." + TrimEnd(t.suffix, '.')
    ensures LabelsBefore(t, name, labels)
  {
    assert labels[0] in labels;
  }

  /** The labels of `x` in front of `suffix`. */
  lemma InnerLabels(suffix: string, x: string) returns (inner: seq<string>)
    requires LabelSuffix(suffix, x) && (|x| == |suffix| || ValidDomain(x))
    ensures forall l :: l in inner ==> l != "" && '.' !in l
    ensures x == if inner == [] then suffix else Join(inner, '.') + "." + suffix
  {
    hide Join, Split;
    inner := [];
    if |x| > |suffix| {
      LabelSuffixParts(suffix, x);
      var front := x[..|x| - |suffix| - 1];
      inner := Split(front, '.');
      SplitConcat(front, suffix, '.');
      SplitPartsHaveNoSeparator(front, '.');
      JoinSplit(front, '.');
      forall l | l in inner ensures l != "" {
        var i :| 0 <= i < |inner| && inner[i] == l;
        assert Split(x, '.')[i] == l;
      }
    }
  }

  /** A target that may match under `p` does match some name whose longest listed domain is `p`. */
  lemma PossibleMatch(rules: seq<Rule>, lower: bool, r: nat, p: string, j: nat)
    returns (name: string, group: Option<string>)
    requires WellFormedRules(rules) && (lower || Fitting(rules)) && j < |rules|
    requires Owns(rules, r, p) && (lower ==> NoUpper(p))
    requires MayMatchUnder(rules, lower, rules[j].target, p)
    ensures InScope(lower, name) && LongestListed(rules, TrimDots(name), p)
        && TargetMatches(rules[j].target, name, group)
  {
    hide Captures, ValidDomain, TrimDots, SuffixMatch, FirstCaptures, LabelSuffix, NoUpper, TrimEnd;
    hide ReadsAlike, Largest;
    var target := rules[j].target;
    OwnerTag(rules, r, p);
    ValidDomainIsTrimmed(p);
    ValidDomainEdges(p);
    ListedIsLongest(rules, r, p);
    ListedInScope(rules, lower, r, p);
    name, group := p, None;
    match target {
      case MatchAll =>
      case Group(g) => group := Some(g);
      case InlineDomains(domains) =>
        var d :| d in domains && LabelSuffix(d, p);
        var i :| 0 <= i < |domains| && domains[i] == d;
        SuffixMatchMeaning(d, p);
      case Template(patterns) =>
        var t :| t in patterns && MayCaptureUnder(rules, lower, t.suffix, p);
        var k :| 0 <= k < |patterns| && patterns[k] == t;
        ValidDomainEdges(t.suffix);
        var x := if LabelSuffix(t.suffix, p) then p else t.suffix;
        WholeIsSuffix(t.suffix);
        assert !lower ==> FitsTemplate(rules, t);
        PaddedLongest(rules, lower, Largest(t.placeholders), x, p);
        name := Padded(FRESH, Largest(t.placeholders), x);
        PaddedIsCaptured(t, FRESH, x);
        FirstCapturesMeaning(patterns, name);
    }
  }

  lemma ListedInScope(rules: seq<Rule>, lower: bool, r: nat, p: string)
    requires Lists(rules, r, p) && (lower || Fits(p, 0)) && (lower ==> NoUpper(p))
    ensures InScope(lower, p)
  {
    hide ReadsAlike, TrimDots;
    assert |TrimDots(p)| <= |p|;
    UnfoldedReadsAlike(p);
  }

  lemma WholeIsSuffix(s: string)
    ensures LabelSuffix(s, s)
  {
  }

  function WitnessType(q1: Option<RecordType>, q2: Option<RecordType>): (t: RecordType)
    requires Overlap(q1, q2)
    ensures QtypeMatches(q1, t) && QtypeMatches(q2, t)
  {
    if q1.Some? && q1.value != TypeANY then q1.value
    else if q2.Some? then q2.value else TypeANY
  }

  lemma RefinesImpliesSafe(rules: seq<Rule>, lower: bool)
    requires WellFormedRules(rules) && (lower || Fitting(rules)) && IndexRefinesScan(rules, lower)
    ensures SafeRules(rules, lower)
  {
    hide IndexRefinesScan, ProposalSafe, NoUpper, WellFormedRules, Fitting;
    forall r, p | Owns(rules, r, p) && (lower ==> NoUpper(p)) ensures ProposalSafe(rules, lower, r, p) {
      ProposalMustBeSafe(rules, lower, r, p);
    }
  }

  /** An earlier rule that may match under `p` is skipped on some query. */
  lemma OverlapDiffers(rules: seq<Rule>, lower: bool, r: nat, p: string, j: nat)
    requires WellFormedRules(rules) && (lower || Fitting(rules)) && Owns(rules, r, p) && (lower ==> NoUpper(p))
    requires r < |InlineIndices(rules, |rules|)| && j < InlineIndices(rules, |rules|)[r]
    requires Overlap(rules[j].qtype, rules[InlineIndices(rules, |rules|)[r]].qtype)
    requires MayMatchUnder(rules, lower, rules[j].target, p)
    ensures !IndexRefinesScan(rules, lower)
  {
    hide Captures, ValidDomain, TrimDots, SuffixMatch, FirstCaptures, InlineHitOf, MayMatchUnder, LabelSuffix, NoUpper;
    hide TargetMatches, ReadsAlike, Fitting;
    var i := InlineIndices(rules, |rules|)[r];
    var name, group := PossibleMatch(rules, lower, r, p, j);
    var qtype := WitnessType(rules[j].qtype, rules[i].qtype);
    HitOf(rules, name, r, p);
    assert Selected(rules, name, qtype, group) == Some(i);
    assert Matches(rules[j], name, qtype, group);
    assert FirstMatch(rules, 0, name, qtype, group) != Some(i);
    assert !RefinesOn(rules, name);
  }

  lemma ProposalMustBeSafe(rules: seq<Rule>, lower: bool, r: nat, p: string)
    requires WellFormedRules(rules) && (lower || Fitting(rules)) && IndexRefinesScan(rules, lower)
    requires Owns(rules, r, p) && (lower ==> NoUpper(p))
    ensures ProposalSafe(rules, lower, r, p)
  {
    hide Captures, ValidDomain, TrimDots, SuffixMatch, FirstCaptures, InlineHitOf, MayMatchUnder, LabelSuffix, NoUpper;
    hide TargetMatches, IndexRefinesScan, Fitting;
    var indices := InlineIndices(rules, |rules|);
    if r < |indices| {
      var i := indices[r];
      ProposedMatches(rules, lower, r, p);
      forall j | 0 <= j < i && Overlap(rules[j].qtype, rules[i].qtype)
        ensures !MayMatchUnder(rules, lower, rules[j].target, p)
      {
        if MayMatchUnder(rules, lower, rules[j].target, p) {
          OverlapDiffers(rules, lower, r, p, j);
        }
      }
    }
  }

  /** The proposed rule must itself cover the listed domain. */
  lemma ProposedMatches(rules: seq<Rule>, lower: bool, r: nat, p: string)
    requires WellFormedRules(rules) && (lower || Fitting(rules)) && IndexRefinesScan(rules, lower)
    requires Owns(rules, r, p) && (lower ==> NoUpper(p))
    requires r < |InlineIndices(rules, |rules|)|
    ensures exists d :: d in rules[InlineIndices(rules, |rules|)[r]].target.domains && LabelSuffix(d, p)
  {
    hide Captures, ValidDomain, TrimDots, SuffixMatch, FirstCaptures, InlineHitOf, LabelSuffix, NoUpper, ReadsAlike;
    var i := InlineIndices(rules, |rules|)[r];
    OwnerTag(rules, r, p);
    ValidDomainIsTrimmed(p);
    ListedIsLongest(rules, r, p);
    ListedInScope(rules, lower, r, p);
    WholeIsSuffix(p);
    var qtype := WitnessType(rules[i].qtype, rules[i].qtype);
    HitOf(rules, p, r, p);
    assert Selected(rules, p, qtype, None) == Some(i);
    assert RefinesOn(rules, p);
    assert Matches(rules[i], p, qtype, None);
    var domains := rules[i].target.domains;
    var k :| 0 <= k < |domains| && SuffixMatch(domains[k], p);
    SuffixMatchMeaning(domains[k], p);
    assert domains[k] in domains;
  }

  /** The index refines the scan exactly on safe configurations: for the lower-case names, and for all
      names that read alike when domains in upper case leave room for a template's labels. */
  lemma RefinesExactlyWhenSafe(rules: seq<Rule>, lower: bool)
    requires WellFormedRules(rules) && (lower || Fitting(rules))
    ensures IndexRefinesScan(rules, lower) <==> SafeRules(rules, lower)
  {
    hide SafeRules, IndexRefinesScan, WellFormedRules, Fitting;
    if SafeRules(rules, lower) {
      SafeImpliesRefines(rules, lower);
    }
    if IndexRefinesScan(rules, lower) {
      RefinesImpliesSafe(rules, lower);
    }
  }

  // ---------------------------------------------------------------------------
  // Inline rules first, unrelated domains
  // ---------------------------------------------------------------------------

  /** The inline rules come before every other rule. */
  predicate InlineFirst(rules: seq<Rule>) {
    forall i, j :: 0 <= i < j < |rules| && rules[j].target.InlineDomains? ==> rules[i].target.InlineDomains?
  }

  /** No domain of one inline rule equals or is a parent of a domain of another. */
  ghost predicate Unrelated(rules: seq<Rule>) {
    forall i, j, d, e :: Lists(rules, i, d) && Lists(rules, j, e) && i != j ==> !LabelSuffix(d, e)
  }

  lemma {:induction false} InlineFirstIndices(rules: seq<Rule>, n: nat)
    requires InlineFirst(rules) && n <= |rules|
    ensures forall i :: 0 <= i < |InlineIndices(rules, n)| ==> InlineIndices(rules, n)[i] == i
    ensures forall i :: 0 <= i < n && rules[i].target.InlineDomains? ==> i < |InlineIndices(rules, n)|
  {
    if n > 0 {
      InlineFirstIndices(rules, n - 1);
      if rules[n - 1].target.InlineDomains? && n > 1 {
        assert rules[n - 2].target.InlineDomains?;
      }
    }
  }

  /** With the inline rules first and unrelated domains, the index refines the scan for every name that
      reads alike, so for every name of up to 256 bytes and every lower-case one. */
  lemma InlineFirstIsSafe(rules: seq<Rule>)
    requires WellFormedRules(rules) && InlineFirst(rules) && Unrelated(rules)
    ensures forall name :: ReadsAlike(name) ==> RefinesOn(rules, name)
  {
    hide ReadsAlike, RefinesOn;
    forall r, p | Owns(rules, r, p) ensures ProposalSafe(rules, false, r, p) {
      InlineFirstIndices(rules, |rules|);
      WholeIsSuffix(p);
      forall j | 0 <= j < r ensures !MayMatchUnder(rules, false, rules[j].target, p) {
        assert rules[j].target.InlineDomains?;
        forall d | d in rules[j].target.domains ensures !LabelSuffix(d, p) {
          assert Lists(rules, j, d);
        }
      }
    }
    SafeImpliesRefines(rules, false);
    assert forall name :: ReadsAlike(name) ==> InScope(false, name);
  }

  /** One rule listing one domain. */
  lemma SoleRule(q: string)
    requires ValidDomain(q)
    ensures var rules := [InlineRule([q])];
            && WellFormedRules(rules) && InlineFirst(rules) && Unrelated(rules)
            && Lists(rules, 0, q) && Owns(rules, 0, q) && InlineIndices(rules, |rules|) == [0]
  {
    hide ValidDomain, LabelSuffix;
    var rules := [InlineRule([q])];
    assert rules[0].target.domains == [q] && rules[0].target.domains[0] == q;
    assert InlineIndices(rules, 0) == [];
  }

  lemma SoleHit(name: string, q: string)
    requires ValidDomain(q) && LabelSuffix(q, SearchedName(name))
    ensures InlineHitOf([InlineRule([q])], name) == Some(0)
  {
    hide ValidDomain, SearchedName, LongestSuffixTag, Decimal.Print, Decimal.Parse, LabelSuffix, InlineTable;
    hide InlineIndices, InlineFirst, Unrelated;
    var rules := [InlineRule([q])];
    var table, d := InlineTable(rules, |rules|), SearchedName(name);
    SoleRule(q);
    InlineTableKeys(rules, |rules|);
    OwnerTag(rules, 0, q);
    forall e | e in table && LabelSuffix(e, d) ensures |e| <= |q| {
      var r :| r < |rules| && Lists(rules, r, e);
    }
    LongestSuffixTagIs(table, d, q);
  }

  lemma SoleScan(name: string, q: string)
    requires ValidDomain(q) && !LabelSuffix(q, TrimDots(name))
    ensures FirstMatch([InlineRule([q])], 0, name, TypeA, None).None?
  {
    hide ValidDomain, TrimDots, SuffixMatch, LabelSuffix;
    SuffixMatchMeaning(q, name);
    assert !Matches([InlineRule([q])][0], name, TypeA, None);
  }

  /** An over-long name in mixed case is given a rule that does not match it. */
  lemma MisreadName(name: string, q: string)
    requires ValidDomain(q) && LabelSuffix(q, SearchedName(name)) && !LabelSuffix(q, TrimDots(name))
    ensures var rules := [InlineRule([q])];
            && WellFormedRules(rules) && InlineFirst(rules) && Unrelated(rules)
            && Selected(rules, name, TypeA, None) == Some(0) && FirstMatch(rules, 0, name, TypeA, None).None?
  {
    hide ValidDomain, TrimDots, SearchedName, LabelSuffix, InlineHitOf, FirstMatch, WellFormedRules;
    hide InlineFirst, Unrelated;
    SoleRule(q);
    SoleHit(name, q);
    SoleScan(name, q);
  }

  /** Fitting the buffer, or falling under no valid domain with upper-case letters, is exactly what the name
      has to bring: for any other name there is such a configuration on which index and scan differ. */
  lemma RefinesOnExactly(name: string)
    ensures (forall rules :: WellFormedRules(rules) && InlineFirst(rules) && Unrelated(rules) ==>
        RefinesOn(rules, name))
       <==> ReadsAlike(name)
  {
    hide ValidDomain, TrimDots, SearchedName, LabelSuffix, WellFormedRules, InlineFirst, Unrelated, RefinesOn;
    if ReadsAlike(name) {
      forall rules | WellFormedRules(rules) && InlineFirst(rules) && Unrelated(rules) ensures RefinesOn(rules, name) {
        InlineFirstIsSafe(rules);
      }
    } else {
      var q := Misread(name);
      MisreadName(name, q);
      DiffersOn([InlineRule([q])], name);
    }
  }

  lemma DiffersOn(rules: seq<Rule>, name: string)
    requires Selected(rules, name, TypeA, None) != FirstMatch(rules, 0, name, TypeA, None)
    ensures !RefinesOn(rules, name)
  {
    hide Selected, FirstMatch;
  }

  /** Such a name: 256 bytes in front of `.A`. */
  lemma MixedCaseExample()
    ensures var name := seq(BUFFER_SIZE, i => 'x') + ".A";
            && Selected([InlineRule(["a"])], name, TypeA, None) == Some(0)
            && FirstMatch([InlineRule(["a"])], 0, name, TypeA, None).None?
  {
    hide ToLower, ValidDomain, TrimDots;
    var front := seq(BUFFER_SIZE, i => 'x');
    var name := front + ".A";
    SingleLabelIsValid('a');
    TrimDotsKeeps(name);
    LongLowerName(front);
    assert name[|name| - 1..] == "A";
    MisreadName(name, "a");
  }

  lemma LongLowerName(front: string)
    requires |front| == BUFFER_SIZE && front[0] != '.' && TrimDots(front + ".A") == front + ".A"
    ensures LabelSuffix("a", SearchedName(front + ".A"))
  {
    hide TrimDots;
    var d := ToLower(front + ".A");
    assert d[|d| - 1..] == "a";
  }

  // ---------------------------------------------------------------------------
  // Proposals of rules that do not cover the name
  // ---------------------------------------------------------------------------

  /** Some inline rule among the first k, for k inline rules in all, stands after a rule of another kind. */
  ghost predicate Displaced(rules: seq<Rule>) {
    exists q, p :: 0 <= q < p < |InlineIndices(rules, |rules|)| && p < |rules|
                   && rules[p].target.InlineDomains? && !rules[q].target.InlineDomains?
  }

  /** The fast path proposes a rule none of whose domains covers the name. */
  ghost predicate Misdirected(rules: seq<Rule>, name: string) {
    var hit := InlineHitOf(rules, name);
    hit.Some? && !TargetMatches(rules[hit.value].target, name, None)
  }

  /** With only inline rules up to `r`, position r is rule r. */
  lemma {:induction false} UndisplacedPosition(rules: seq<Rule>, n: nat, r: nat)
    requires n <= |rules| && r < n
    requires forall i :: 0 <= i <= r ==> rules[i].target.InlineDomains?
    ensures r < |InlineIndices(rules, n)| && InlineIndices(rules, n)[r] == r
    decreases n
  {
    if n - 1 > r {
      UndisplacedPosition(rules, n - 1, r);
    } else {
      AllInlineIndices(rules, n);
    }
  }

  lemma {:induction false} AllInlineIndices(rules: seq<Rule>, n: nat)
    requires n <= |rules| && forall i :: 0 <= i < n ==> rules[i].target.InlineDomains?
    ensures |InlineIndices(rules, n)| == n && forall i :: 0 <= i < n ==> InlineIndices(rules, n)[i] == i
  {
    if n > 0 {
      AllInlineIndices(rules, n - 1);
    }
  }

  /** With a rule of another kind before `p`, position p is a later rule. */
  lemma DisplacedPosition(rules: seq<Rule>, q: nat, p: nat)
    requires q < p < |InlineIndices(rules, |rules|)| && p < |rules|
    requires !rules[q].target.InlineDomains?
    ensures InlineIndices(rules, |rules|)[p] != p
  {
    var indices := InlineIndices(rules, |rules|);
    if indices[p] == p {
      IncreasingBelow(indices, p, q);
    }
  }

  lemma {:induction false} IncreasingBelow(indices: seq<nat>, p: nat, q: nat)
    requires q <= p < |indices| && indices[p] == p
    requires forall i :: 0 <= i < |indices| ==> i <= indices[i]
    requires forall i, j :: 0 <= i < j < |indices| ==> indices[i] < indices[j]
    ensures indices[q] == q
    decreases p - q
  {
    if q < p {
      IncreasingBelow(indices, p, q + 1);
    }
  }

  /** Misdirection needs a displaced inline rule, whatever the domains. */
  lemma MisdirectionNeedsDisplacement(rules: seq<Rule>, name: string)
    requires WellFormedRules(rules) && ReadsAlike(name) && Misdirected(rules, name)
    ensures Displaced(rules)
  {
    hide ValidDomain, TrimDots, SuffixMatch, InlineHitOf, LabelSuffix, NoUpper, ReadsAlike;
    var r, p := HitComesFrom(rules, name);
    var indices := InlineIndices(rules, |rules|);
    var i := indices[r];
    if i == r {
      OwnerTag(rules, r, p);
      var k :| 0 <= k < |rules[r].target.domains| && rules[r].target.domains[k] == p;
      SuffixMatchMeaning(p, name);
    } else if forall q :: 0 <= q < r ==> rules[q].target.InlineDomains? {
      UndisplacedPosition(rules, |rules|, r);
    }
  }

  /** With unrelated domains, some name is misdirected exactly when some inline rule is displaced. */
  lemma MisdirectedExactlyWhenDisplaced(rules: seq<Rule>)
    requires WellFormedRules(rules) && Unrelated(rules)
    requires forall r, d :: Lists(rules, r, d) ==> Fits(d, 0)
    ensures (exists name :: ReadsAlike(name) && Misdirected(rules, name)) <==> Displaced(rules)
  {
    hide ValidDomain, TrimDots, SuffixMatch, InlineHitOf, LabelSuffix, NoUpper, ReadsAlike;
    if exists name :: ReadsAlike(name) && Misdirected(rules, name) {
      var name :| ReadsAlike(name) && Misdirected(rules, name);
      MisdirectionNeedsDisplacement(rules, name);
    }
    if Displaced(rules) {
      var indices := InlineIndices(rules, |rules|);
      var q, r :| 0 <= q < r < |indices| && r < |rules|
                  && rules[r].target.InlineDomains? && !rules[q].target.InlineDomains?;
      DisplacedPosition(rules, q, r);
      var p, i := rules[r].target.domains[0], indices[r];
      assert Lists(rules, r, p);
      WholeIsSuffix(p);
      assert Owns(rules, r, p) by {
        forall other | r < other < |rules| ensures !Lists(rules, other, p) {
        }
      }
      OwnerTag(rules, r, p);
      ValidDomainIsTrimmed(p);
      ListedIsLongest(rules, r, p);
      ListedInScope(rules, false, r, p);
      HitOf(rules, p, r, p);
      var domains := rules[i].target.domains;
      forall k | 0 <= k < |domains| ensures !SuffixMatch(domains[k], p) {
        assert Lists(rules, i, domains[k]);
        SuffixMatchMeaning(domains[k], p);
      }
      assert Misdirected(rules, p);
    }
  }

  // ---------------------------------------------------------------------------
  // Two configurations on which the outcome changes
  // ---------------------------------------------------------------------------

  function InlineRule(domains: seq<string>): Rule {
    Rule(InlineDomains(domains), None, Block(false))
  }

  lemma SingleLabelIsValid(c: char)
    requires IsLabelChar(c) && c != '-'
    ensures ValidDomain([c])
  {
    SplitWhole([c], '.');
  }

  /** A group rule in front of two inline rules sends a query for the first one's domain to the second. */
  lemma DisplacedExample()
    ensures var rules := [Rule(Group("g"), None, Block(false)), InlineRule(["a"]), InlineRule(["b"])];
            && Selected(rules, "a", TypeA, None) == Some(2)
            && FirstMatch(rules, 0, "a", TypeA, None) == Some(1)
  {
    hide ValidDomain, TrimDots, SuffixMatch, InlineHitOf, NoUpper;
    var rules := [Rule(Group("g"), None, Block(false)), InlineRule(["a"]), InlineRule(["b"])];
    SingleLabelIsValid('a');
    SingleLabelIsValid('b');
    assert WellFormedRules(rules);
    assert InlineIndices(rules, 1) == [];
    assert InlineIndices(rules, 2) == [1];
    assert InlineIndices(rules, 3) == [1, 2];
    ValidDomainIsTrimmed("a");
    assert Lists(rules, 1, "a");
    ListedIsLongest(rules, 1, "a");
    LowerLabel("a");
    UnfoldedReadsAlike("a");
    HitOf(rules, "a", 1, "a");
    SuffixMatchMeaning("a", "a");
    WholeIsSuffix("a");
    assert Matches(rules[1], "a", TypeA, None);
    FirstMatchIs(rules, "a", TypeA, None, 1);
  }

  lemma LowerLabel(s: string)
    requires forall c :: c in s ==> 'a' <= c <= 'z'
    ensures NoUpper(s)
  {
    forall i | 0 <= i < |s| ensures !('A' <= s[i] <= 'Z') {
      assert s[i] in s;
    }
  }

  /** Of two inline rules, the one with the longer suffix is applied although the other comes first. */
  lemma LongestBeatsFirstExample()
    ensures var rules := [InlineRule(["a"]), InlineRule(["b.a"])];
            && Selected(rules, "b.a", TypeA, None) == Some(1)
            && FirstMatch(rules, 0, "b.a", TypeA, None) == Some(0)
  {
    hide ValidDomain, TrimDots, SuffixMatch, InlineHitOf;
    var rules := [InlineRule(["a"]), InlineRule(["b.a"])];
    SingleLabelIsValid('a');
    TwoLabelsAreValid();
    assert WellFormedRules(rules);
    assert InlineIndices(rules, 1) == [0];
    assert InlineIndices(rules, 2) == [0, 1];
    ValidDomainIsTrimmed("b.a");
    assert Lists(rules, 1, "b.a");
    ListedIsLongest(rules, 1, "b.a");
    UnfoldedReadsAlike("b.a");
    HitOf(rules, "b.a", 1, "b.a");
    SuffixMatchMeaning("a", "b.a");
    assert "b.a"[2..] == "a" && "b.a"[1] == '.';
    assert LabelSuffix("a", "b.a");
    assert rules[0].target.domains[0] == "a";
    assert Matches(rules[0], "b.a", TypeA, None);
    FirstMatchIs(rules, "b.a", TypeA, None, 0);
  }

  lemma TwoLabelsAreValid()
    ensures ValidDomain("b.a")
  {
    hide Split, ValidLabel;
    assert "b.a" == "b" + "." + "a";
    SplitConcat("b", "a", '.');
    SplitWhole("b", '.');
    SplitWhole("a", '.');
    assert Split("b.a", '.') == ["b", "a"];
    SingleLabels();
  }

  lemma SingleLabels()
    ensures ValidLabel("b") && ValidLabel("a")
  {
  }
}
