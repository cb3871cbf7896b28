/** Static host entries: address lines, alias lines, and what a name resolves to. */
module Hosts {
  import opened Wrappers
  import opened Text
  import opened SuffixTrie
  import opened Addresses
  import opened Dns
  import opened Query
  import Decimal

  /** Parses IP addresses as the standard library does. */
  type IpParser = string -> Option<IpAddr>

  /** Name parsing: strict for redirected queries, lenient for the names of records. */
  type NameParser = string -> Option<Name>

  // ---------------------------------------------------------------------------
  // What a hosts file means
  // ---------------------------------------------------------------------------

  /** One address or one alias of a line. */
  datatype Entry = Address(domain: string, ip: IpAddr) | AliasFor(name: string, original: string)

  /** What a stored domain leads to. */
  datatype Target = AddressesOf(domain: string) | NameOf(original: string)

  datatype Lookup = Ips(ips: seq<IpAddr>) | Alias(original: string) | Miss

  /** `s` without its leading wildcard labels. */
  function TrimWildcard(s: string): string {
    if StartsWith(s, "*.") then TrimWildcard(s[2..]) else s
  }

  /** `n` wildcard labels. */
  function Wildcards(n: nat): string {
    if n == 0 then "" else "*." + Wildcards(n - 1)
  }

  lemma {:induction false} TrimWildcardExactly(s: string, n: nat, r: string)
    requires s == Wildcards(n) + r && !StartsWith(r, "*.")
    ensures TrimWildcard(s) == r
  {
    if n > 0 {
      assert s == "*." + (Wildcards(n - 1) + r);
      assert s[2..] == Wildcards(n - 1) + r;
      TrimWildcardExactly(s[2..], n - 1, r);
    }
  }

  /** The addresses given for `domain`, in order. */
  function IpsFor(entries: seq<Entry>, domain: string): seq<IpAddr> {
    if entries == [] then [] else
    var before, e := IpsFor(entries[..|entries| - 1], domain), entries[|entries| - 1];
    if e.Address? && TrimWildcard(e.domain) == domain then before + [e.ip] else before
  }

  /** The stored domains. An address line counts only when its domain had no address before;
      an alias line always does. */
  function TableOf(entries: seq<Entry>): map<string, Target> {
    if entries == [] then map[] else
    var before, table := entries[..|entries| - 1], TableOf(entries[..|entries| - 1]);
    match entries[|entries| - 1]
    case Address(domain, ip) =>
      var d := TrimWildcard(domain);
      if IpsFor(before, d) == [] then table[TrimDots(d) := AddressesOf(d)] else table
    case AliasFor(name, original) => table[TrimDots(name) := NameOf(original)]
  }

  /** What `name` leads to: the most specific stored domain decides. */
  function Found(entries: seq<Entry>, name: string): Lookup {
    match LongestSuffixTag(TableOf(entries), SearchedName(name))
    case None => Miss
    case Some(target) => TargetMeaning(entries, target)
  }

  function TargetMeaning(entries: seq<Entry>, target: Target): Lookup {
    match target
    case AddressesOf(domain) => Ips(IpsFor(entries, domain))
    case NameOf(original) => Alias(original)
  }

  /** No alias leads to a name that reads as a number. */
  predicate SafeAliases(entries: seq<Entry>) {
    forall i :: 0 <= i < |entries| && entries[i].AliasFor? ==> !IsNumber(entries[i].original)
  }

  predicate IsNumber(s: string) {
    Decimal.Parse(s, Decimal.USIZE_MAX).Some?
  }

  // ---------------------------------------------------------------------------
  // Lines
  // ---------------------------------------------------------------------------

  function AddressEntries(domains: seq<string>, ip: IpAddr): (r: seq<Entry>) {
    if domains == [] then [] else
    AddressEntries(domains[..|domains| - 1], ip) + [Address(domains[|domains| - 1], ip)]
  }

  /** A name is no alias of itself. */
  function AliasEntries(names: seq<string>, original: string): (r: seq<Entry>)
    ensures forall i :: 0 <= i < |r| ==> r[i].AliasFor? && r[i].original == original && r[i].name != original
  {
    if names == [] then [] else
    var last := names[|names| - 1];
    AliasEntries(names[..|names| - 1], original) + if last == original then [] else [AliasFor(last, original)]
  }

  /** The entries of a line given by its words; comments are already cut off. */
  function LineEntries(parseIp: IpParser, words: seq<string>): seq<Entry> {
    if |words| < 2 then []
    else match parseIp(words[0])
      case Some(ip) => AddressEntries(words[1..], ip)
      case None => if IsNumber(words[0]) then [] else AliasEntries(words[1..], words[0])
  }

  function EntriesOf(parseIp: IpParser, lines: seq<seq<string>>): seq<Entry> {
    if lines == [] then [] else
    EntriesOf(parseIp, lines[..|lines| - 1]) + LineEntries(parseIp, lines[|lines| - 1])
  }

  lemma {:induction false} AddressEntriesAreAddresses(domains: seq<string>, ip: IpAddr)
    ensures forall i :: 0 <= i < |AddressEntries(domains, ip)| ==> AddressEntries(domains, ip)[i].Address?
  {
    if domains != [] {
      AddressEntriesAreAddresses(domains[..|domains| - 1], ip);
    }
  }

  /** Entries come in the order of their lines. */
  lemma {:induction false} LinesInOrder(parseIp: IpParser, a: seq<seq<string>>, b: seq<seq<string>>)
    ensures EntriesOf(parseIp, a + b) == EntriesOf(parseIp, a) + EntriesOf(parseIp, b)
    decreases |b|
  {
    hide EntriesOf, LineEntries;
    OneMoreLine(parseIp, b);
    OneMoreLine(parseIp, a + b);
    if b == [] {
      assert a + b == a;
    } else {
      var n := |b| - 1;
      LinesInOrder(parseIp, a, b[..n]);
      assert (a + b)[..|a + b| - 1] == a + b[..n];
    }
  }

  lemma OneMoreLine(parseIp: IpParser, lines: seq<seq<string>>)
    ensures EntriesOf(parseIp, lines) ==
            if lines == [] then []
            else EntriesOf(parseIp, lines[..|lines| - 1]) + LineEntries(parseIp, lines[|lines| - 1])
  {
    hide LineEntries;
  }

  /** A line that starts with an address gives it to each of its other words, in order. A line that starts with
      anything else but a number makes its other words aliases of the first. */
  lemma LineExactly(parseIp: IpParser, words: seq<string>)
    ensures var r := LineEntries(parseIp, words);
            && (|words| < 2 ==> r == [])
            && (|words| >= 2 && parseIp(words[0]).Some? ==>
                  |r| == |words| - 1
                  && forall i :: 0 <= i < |r| ==> r[i] == Address(words[i + 1], parseIp(words[0]).value))
            && (|words| >= 2 && parseIp(words[0]).None? ==>
                  forall e :: e in r <==>
                                && !IsNumber(words[0]) && e.AliasFor? && e.original == words[0]
                                && e.name in words[1..] && e.name != words[0])
  {
    hide IsNumber;
    if |words| >= 2 {
      if parseIp(words[0]).Some? {
        AddressEntriesExactly(words[1..], parseIp(words[0]).value);
      } else {
        forall e ensures e in AliasEntries(words[1..], words[0]) <==>
            e.AliasFor? && e.original == words[0] && e.name in words[1..] && e.name != words[0]
        {
          AliasEntriesExactly(words[1..], words[0], e);
        }
      }
    }
  }

  lemma {:induction false} AddressEntriesExactly(domains: seq<string>, ip: IpAddr)
    ensures |AddressEntries(domains, ip)| == |domains|
    ensures forall i :: 0 <= i < |domains| ==> AddressEntries(domains, ip)[i] == Address(domains[i], ip)
  {
    if domains != [] {
      AddressEntriesExactly(domains[..|domains| - 1], ip);
    }
  }

  lemma {:induction false} AliasEntriesExactly(names: seq<string>, original: string, e: Entry)
    ensures e in AliasEntries(names, original) <==>
            e.AliasFor? && e.original == original && e.name in names && e.name != original
  {
    if names != [] {
      var n := |names| - 1;
      AliasEntriesExactly(names[..n], original, e);
      assert names == names[..n] + [names[n]];
    }
  }

  /** The addresses of a domain are those its address entries give, in their order. */
  lemma {:induction false} AddressesInOrder(a: seq<Entry>, b: seq<Entry>, d: string)
    ensures IpsFor(a + b, d) == IpsFor(a, d) + IpsFor(b, d)
    decreases |b|
  {
    hide IpsFor;
    if b == [] {
      assert a + b == a;
      NoIps(d);
    } else {
      var n := |b| - 1;
      AddressesInOrder(a, b[..n], d);
      OneMore(a + b[..n], b[n]);
      OneMore(b[..n], b[n]);
      assert a + b == a + b[..n] + [b[n]];
      assert b == b[..n] + [b[n]];
    }
  }

  lemma AddressOfEntry(e: Entry, d: string)
    ensures IpsFor([e], d) == if e.Address? && TrimWildcard(e.domain) == d then [e.ip] else []
  {
    hide TrimWildcard;
    assert [e][..0] == [];
  }

  /** Whatever the lines say, no alias reads as a number. */
  lemma {:induction false} LinesAreSafe(parseIp: IpParser, lines: seq<seq<string>>)
    ensures SafeAliases(EntriesOf(parseIp, lines))
  {
    if lines != [] {
      var words := lines[|lines| - 1];
      LinesAreSafe(parseIp, lines[..|lines| - 1]);
      if |words| >= 2 && parseIp(words[0]).Some? {
        AddressEntriesAreAddresses(words[1..], parseIp(words[0]).value);
      }
    }
  }

  // ---------------------------------------------------------------------------
  // The index numbers address lists and stores the numbers as tags
  // ---------------------------------------------------------------------------

  /** The tag that stands for a target. */
  ghost predicate TagIs(tag: string, target: Target, idx: map<string, nat>) {
    match target
    case AddressesOf(domain) => domain in idx && tag == Decimal.Print(idx[domain])
    case NameOf(original) => tag == original
  }

  /** Every domain with addresses has its own list, holding exactly its addresses. */
  ghost predicate ListsMatch(entries: seq<Entry>, ips: seq<seq<IpAddr>>, idx: map<string, nat>) {
    && |ips| <= |entries|
    && (forall d :: d in idx <==> IpsFor(entries, d) != [])
    && (forall d :: d in idx ==> idx[d] < |ips| && ips[idx[d]] == IpsFor(entries, d))
    && (forall d, e :: d in idx && e in idx && idx[d] == idx[e] ==> d == e)
  }

  ghost predicate TagsMatch(targets: map<string, Target>, table: map<string, string>, idx: map<string, nat>) {
    table.Keys == targets.Keys && forall k :: k in table ==> TagIs(table[k], targets[k], idx)
  }

  ghost predicate Refines(entries: seq<Entry>, table: map<string, string>, ips: seq<seq<IpAddr>>,
                          idx: map<string, nat>) {
    ListsMatch(entries, ips, idx) && TagsMatch(TableOf(entries), table, idx)
  }

  lemma OneMore(entries: seq<Entry>, e: Entry)
    ensures (entries + [e])[..|entries|] == entries
    ensures forall d :: IpsFor(entries + [e], d) ==
                        IpsFor(entries, d) + if e.Address? && TrimWildcard(e.domain) == d then [e.ip] else []
  {
    assert (entries + [e])[..|entries|] == entries;
  }

  lemma AliasRefines(entries: seq<Entry>, table: map<string, string>, ips: seq<seq<IpAddr>>, idx: map<string, nat>,
                     name: string, original: string)
    requires Refines(entries, table, ips, idx)
    ensures Refines(entries + [AliasFor(name, original)], table[TrimDots(name) := original], ips, idx)
  {
    hide TrimDots, TrimWildcard;
    OneMore(entries, AliasFor(name, original));
  }

  lemma NewDomainRefines(entries: seq<Entry>, table: map<string, string>, ips: seq<seq<IpAddr>>, idx: map<string, nat>,
                         domain: string, ip: IpAddr)
    requires Refines(entries, table, ips, idx) && TrimWildcard(domain) !in idx
    ensures var d := TrimWildcard(domain);
            Refines(entries + [Address(domain, ip)], table[TrimDots(d) := Decimal.Print(|ips|)], ips + [[ip]],
              idx[d := |ips|])
  {
    hide TrimDots, TrimWildcard, Decimal.Print, ListsMatch;
    NewDomainLists(entries, ips, idx, domain, ip);
    NewDomainTable(entries, ips, idx, domain, ip);
  }

  lemma NewDomainTable(entries: seq<Entry>, ips: seq<seq<IpAddr>>, idx: map<string, nat>, domain: string, ip: IpAddr)
    requires ListsMatch(entries, ips, idx) && TrimWildcard(domain) !in idx
    ensures var d := TrimWildcard(domain);
            TableOf(entries + [Address(domain, ip)]) == TableOf(entries)[TrimDots(d) := AddressesOf(d)]
  {
    hide TrimDots, TrimWildcard;
    assert (entries + [Address(domain, ip)])[..|entries|] == entries;
  }

  lemma NewDomainLists(entries: seq<Entry>, ips: seq<seq<IpAddr>>, idx: map<string, nat>, domain: string, ip: IpAddr)
    requires ListsMatch(entries, ips, idx) && TrimWildcard(domain) !in idx
    ensures ListsMatch(entries + [Address(domain, ip)], ips + [[ip]], idx[TrimWildcard(domain) := |ips|])
  {
    hide TrimWildcard, IpsFor;
    OneMore(entries, Address(domain, ip));
  }

  lemma KnownDomainRefines(entries: seq<Entry>, table: map<string, string>, ips: seq<seq<IpAddr>>,
                           idx: map<string, nat>,
                           domain: string, ip: IpAddr)
    requires Refines(entries, table, ips, idx) && TrimWildcard(domain) in idx
    ensures var i := idx[TrimWildcard(domain)];
            Refines(entries + [Address(domain, ip)], table, ips[i := ips[i] + [ip]], idx)
  {
    hide TrimDots, TrimWildcard, ListsMatch, IpsFor;
    KnownDomainTable(entries, ips, idx, domain, ip);
    KnownDomainLists(entries, ips, idx, domain, ip);
  }

  lemma KnownDomainTable(entries: seq<Entry>, ips: seq<seq<IpAddr>>, idx: map<string, nat>, domain: string, ip: IpAddr)
    requires ListsMatch(entries, ips, idx) && TrimWildcard(domain) in idx
    ensures idx[TrimWildcard(domain)] < |ips|
    ensures TableOf(entries + [Address(domain, ip)]) == TableOf(entries)
  {
    hide TrimDots, TrimWildcard;
    assert (entries + [Address(domain, ip)])[..|entries|] == entries;
  }

  lemma KnownDomainLists(entries: seq<Entry>, ips: seq<seq<IpAddr>>, idx: map<string, nat>, domain: string, ip: IpAddr)
    requires ListsMatch(entries, ips, idx) && TrimWildcard(domain) in idx && idx[TrimWildcard(domain)] < |ips|
    ensures var i := idx[TrimWildcard(domain)];
            ListsMatch(entries + [Address(domain, ip)], ips[i := ips[i] + [ip]], idx)
  {
    hide TrimWildcard, IpsFor;
    OneMore(entries, Address(domain, ip));
  }

  class HostsTrieBuilder {
    const builder: DomainSuffixTrieBuilder
    var ips: seq<seq<IpAddr>>
    var domainToIdx: map<string, nat>

    /** Everything inserted so far. */
    ghost var entries: seq<Entry>

    ghost predicate Valid()
      reads this, builder
    {
      && builder.Valid() && |builder.idToTag| <= |entries|
      && Refines(entries, builder.table, ips, domainToIdx)
    }

    constructor ()
      ensures Valid() && fresh(builder) && entries == []
    {
      builder := new DomainSuffixTrieBuilder();
      ips, domainToIdx, entries := [], map[], [];
    }

    /** Adds an address; the first one for a domain also stores the domain. */
    method Insert(domain: string, ip: IpAddr)
      requires Valid()
      modifies this, builder
      ensures Valid() && entries == old(entries) + [Address(domain, ip)]
    {
      hide DomainSuffixTrieBuilder.Valid, Refines, TrimDots, TrimWildcard, Decimal.Print;
      var d := TrimWildcard(domain);
      if d !in domainToIdx {
        NewDomainRefines(entries, builder.table, ips, domainToIdx, domain, ip);
        builder.Insert(d, Decimal.Print(|ips|));
        domainToIdx := domainToIdx[d := |ips|];
        var i := |ips|;
        ips := ips + [[]];
        ips := ips[i := ips[i] + [ip]];
        assert ips[i] == [ip];
        assert ips == old(ips) + [[ip]];
      } else {
        KnownDomainRefines(entries, builder.table, ips, domainToIdx, domain, ip);
        IndexIsThere(entries, builder.table, ips, domainToIdx, d);
        var i := domainToIdx[d];
        ips := ips[i := ips[i] + [ip]];
      }
      entries := entries + [Address(domain, ip)];
    }

    method InsertAlias(name: string, original: string)
      requires Valid()
      modifies this, builder
      ensures Valid() && entries == old(entries) + [AliasFor(name, original)]
    {
      hide DomainSuffixTrieBuilder.Valid, Refines, TrimDots;
      AliasRefines(entries, builder.table, ips, domainToIdx, name, original);
      builder.Insert(name, original);
      entries := entries + [AliasFor(name, original)];
    }

    /** Reads an address line; false when the line is for the alias reader. */
    method ParseHostsLine(parseIp: IpParser, words: seq<string>) returns (consumed: bool)
      requires Valid()
      modifies this, builder
      ensures Valid()
      ensures consumed <==> words == [] || (|words| >= 2 && parseIp(words[0]).Some?)
      ensures entries == old(entries) + if consumed then LineEntries(parseIp, words) else []
    {
      hide Valid;
      if words == [] {
        return true;
      }
      if |words| < 2 {
        return false;
      }
      var ip := parseIp(words[0]);
      if ip.None? {
        return false;
      }
      var domains := words[1..];
      for k := 0 to |domains|
        invariant Valid()
        invariant entries == old(entries) + AddressEntries(domains[..k], ip.value)
      {
        assert domains[..k + 1][..k] == domains[..k];
        Insert(domains[k], ip.value);
      }
      assert domains[..|domains|] == domains;
      consumed := true;
    }

    /** Reads an alias line; one whose original is an address or a number is skipped. */
    method ParseAliasLine(parseIp: IpParser, words: seq<string>)
      requires Valid()
      modifies this, builder
      ensures Valid()
      ensures entries == old(entries) +
                         if |words| >= 2 && parseIp(words[0]).None? then LineEntries(parseIp, words) else []
    {
      hide Valid, IsNumber;
      if |words| < 2 {
        return;
      }
      var original := words[0];
      if parseIp(original).Some? || IsNumber(original) {
        return;
      }
      var names := words[1..];
      for k := 0 to |names|
        invariant Valid()
        invariant entries == old(entries) + AliasEntries(names[..k], original)
      {
        assert names[..k + 1][..k] == names[..k];
        if names[k] != original {
          InsertAlias(names[k], original);
        }
      }
      assert names[..|names|] == names;
    }

    method ParseEntryLine(parseIp: IpParser, words: seq<string>)
      requires Valid()
      modifies this, builder
      ensures Valid() && entries == old(entries) + LineEntries(parseIp, words)
    {
      hide Valid;
      var consumed := ParseHostsLine(parseIp, words);
      if !consumed {
        ParseAliasLine(parseIp, words);
      }
    }

    method Build() returns (trie: HostsTrie)
      requires Valid()
      ensures |entries| <= TAG_LIMIT ==> trie.Represents(entries)
    {
      hide DomainSuffixTrieBuilder.Valid, Refines;
      var index := builder.Build();
      trie := HostsTrie(index, ips);
      if |entries| <= TAG_LIMIT {
        assert index.Represents(builder.table) && Refines(entries, builder.table, trie.ips, domainToIdx);
      }
    }
  }

  lemma IndexIsThere(entries: seq<Entry>, table: map<string, string>, ips: seq<seq<IpAddr>>, idx: map<string, nat>,
                     d: string)
    requires Refines(entries, table, ips, idx) && d in idx
    ensures idx[d] < |ips|
  {
  }

  datatype HostsTrie = HostsTrie(trie: DomainSuffixTrie, ips: seq<seq<IpAddr>>)
  {
    ghost predicate Represents(entries: seq<Entry>) {
      exists table, idx :: trie.Represents(table) && Refines(entries, table, ips, idx)
    }

    /** A tag is the number of an address list or the name an alias leads to. */
    function Meaning(tag: string): Lookup {
      match Decimal.Parse(tag, Decimal.USIZE_MAX)
      case None => Alias(tag)
      case Some(i) => if i < |ips| then Ips(ips[i]) else Miss
    }

    method Lookup(domain: string, ghost entries: seq<Entry>) returns (r: Lookup)
      requires Represents(entries) && SafeAliases(entries) && |entries| <= Decimal.USIZE_MAX
      ensures r == Found(entries, domain)
    {
      hide DomainSuffixTrie.Represents, Refines, SafeAliases, Meaning, SearchedName;
      ghost var table, idx :| trie.Represents(table) && Refines(entries, table, ips, idx);
      var tag := trie.Lookup(domain, table);
      TagMeaning(entries, table, idx, SearchedName(domain));
      r := match tag
        case None => Miss
        case Some(t) => Meaning(t);
    }

    lemma TagMeaning(entries: seq<Entry>, table: map<string, string>, idx: map<string, nat>, d: string)
      requires Refines(entries, table, ips, idx) && SafeAliases(entries) && |entries| <= Decimal.USIZE_MAX
      ensures var tag, target := LongestSuffixTag(table, d), LongestSuffixTag(TableOf(entries), d);
              && tag.Some? == target.Some?
              && (target.Some? ==> Meaning(tag.value) == TargetMeaning(entries, target.value))
    {
      hide Decimal.Parse, Decimal.Print;
      var key := SameKeys(table, TableOf(entries), d);
      if key.Some? && TableOf(entries)[key.value].AddressesOf? {
        var i := idx[TableOf(entries)[key.value].domain];
        Decimal.ParsePrint(i, Decimal.USIZE_MAX);
      } else if key.Some? {
        AliasTargetIsSafe(entries, key.value);
      }
    }
  }

  /** Tables with the same domains decide by the same one. */
  lemma {:induction false} SameKeys<V, W>(a: map<string, V>, b: map<string, W>, d: string) returns (key: Option<string>)
    requires a.Keys == b.Keys
    ensures key.None? ==> LongestSuffixTag(a, d).None? && LongestSuffixTag(b, d).None?
    ensures key.Some? ==> && key.value in a && key.value in b
                          && LongestSuffixTag(a, d) == Some(a[key.value])
                          && LongestSuffixTag(b, d) == Some(b[key.value])
    decreases |d|
  {
    var i := IndexOf(d, '.');
    key := if d == "" then None else if d in a then Some(d) else None;
    if d != "" && d !in a && i < |d| {
      key := SameKeys(a, b, d[i + 1..]);
    }
  }

  lemma {:induction false} AliasTargetIsSafe(entries: seq<Entry>, key: string)
    requires SafeAliases(entries) && key in TableOf(entries) && TableOf(entries)[key].NameOf?
    ensures !IsNumber(TableOf(entries)[key].original)
  {
    hide IsNumber, TrimDots, TrimWildcard;
    var n := |entries| - 1;
    if entries[n].Address? || key != TrimDots(entries[n].name) {
      AliasTargetIsSafe(entries[..n], key);
    }
  }

  /** Builds the index from the lines of the configuration. */
  method BuildHostsTrie(parseIp: IpParser, lines: seq<seq<string>>) returns (trie: HostsTrie)
    ensures |EntriesOf(parseIp, lines)| <= TAG_LIMIT ==> trie.Represents(EntriesOf(parseIp, lines))
  {
    hide LineEntries, HostsTrieBuilder.Valid, HostsTrie.Represents;
    var builder := new HostsTrieBuilder();
    for i := 0 to |lines|
      invariant fresh(builder) && fresh(builder.builder) && builder.Valid()
      invariant builder.entries == EntriesOf(parseIp, lines[..i])
    {
      assert lines[..i + 1][..i] == lines[..i];
      builder.ParseEntryLine(parseIp, lines[i]);
    }
    assert lines[..|lines|] == lines;
    trie := builder.Build();
  }

  // ---------------------------------------------------------------------------
  // Alias chains
  // ---------------------------------------------------------------------------

  /** The name `k` aliases on from `name`, if the chain is that long. */
  function ChainAt(entries: seq<Entry>, name: string, k: nat): Option<string> {
    if k == 0 then Some(name) else
    var before := ChainAt(entries, name, k - 1);
    if before.None? then None else
    match Found(entries, before.value)
    case Alias(original) => Some(original)
    case _ => None
  }

  /** The chain from `name` ends at addresses. */
  ghost predicate EndsAt(entries: seq<Entry>, name: string, k: nat, ips: seq<IpAddr>) {
    var last := ChainAt(entries, name, k);
    last.Some? && Found(entries, last.value) == Ips(ips)
  }

  datatype HostResolution = Static(ips: seq<IpAddr>) | Network(name: string)

  /** Names a chain can pass through: the first one, and every name an alias leads to. */
  function Originals(entries: seq<Entry>): set<string> {
    set i | 0 <= i < |entries| && entries[i].AliasFor? :: entries[i].original
  }

  lemma {:induction false} AliasIsOriginal(entries: seq<Entry>, key: string)
    requires key in TableOf(entries) && TableOf(entries)[key].NameOf?
    ensures TableOf(entries)[key].original in Originals(entries)
  {
    hide TrimDots, TrimWildcard;
    var n := |entries| - 1;
    if entries[n].Address? || key != TrimDots(entries[n].name) {
      AliasIsOriginal(entries[..n], key);
    }
  }

  lemma FoundAlias(entries: seq<Entry>, name: string)
    requires Found(entries, name).Alias?
    ensures Found(entries, name).original in Originals(entries)
  {
    hide SearchedName, TableOf, Originals;
    var key := SameKeys(TableOf(entries), TableOf(entries), SearchedName(name));
    AliasIsOriginal(entries, key.value);
  }

  /** Every name before position `n` is an alias. */
  ghost predicate AliasesUpTo(entries: seq<Entry>, name: string, n: nat) {
    forall k :: 0 <= k < n ==> ChainAt(entries, name, k).Some? && Found(entries, ChainAt(entries, name, k).value).Alias?
  }

  /** A chain that returns to an earlier name goes round for ever. */
  lemma {:induction false} CycleStays(entries: seq<Entry>, name: string, n: nat, j: nat, k: nat)
    requires AliasesUpTo(entries, name, n) && j < n && ChainAt(entries, name, j) == ChainAt(entries, name, n)
    ensures exists i :: 0 <= i < n && ChainAt(entries, name, i) == ChainAt(entries, name, k)
  {
    hide Found;
    if k > 0 {
      CycleStays(entries, name, n, j, k - 1);
      var i :| 0 <= i < n && ChainAt(entries, name, i) == ChainAt(entries, name, k - 1);
      assert ChainAt(entries, name, i + 1) == ChainAt(entries, name, k);
    }
  }

  /** Such a chain never reaches addresses. */
  lemma CycleHasNoEnd(entries: seq<Entry>, name: string, n: nat, j: nat)
    requires AliasesUpTo(entries, name, n) && j < n && ChainAt(entries, name, j) == ChainAt(entries, name, n)
    ensures forall k, ips :: !EndsAt(entries, name, k, ips)
  {
    hide Found, ChainAt;
    forall k, ips ensures !EndsAt(entries, name, k, ips) {
      CycleStays(entries, name, n, j, k);
      var i :| 0 <= i < n && ChainAt(entries, name, i) == ChainAt(entries, name, k);
    }
  }

  /** A chain that ends before position `k` has nothing there. */
  lemma {:induction false} NothingBeyond(entries: seq<Entry>, name: string, n: nat, k: nat)
    requires n < k && ChainAt(entries, name, n).Some? && !Found(entries, ChainAt(entries, name, n).value).Alias?
    ensures ChainAt(entries, name, k).None?
  {
    hide Found;
    if n < k - 1 {
      NothingBeyond(entries, name, n, k - 1);
    }
  }

  /** A chain whose first stop that is no alias is at `n` can end only there. */
  lemma OnlyEnd(entries: seq<Entry>, name: string, n: nat)
    requires AliasesUpTo(entries, name, n)
    requires ChainAt(entries, name, n).Some? && !Found(entries, ChainAt(entries, name, n).value).Alias?
    ensures forall k, ips :: EndsAt(entries, name, k, ips) ==> k == n
  {
    hide Found, ChainAt;
    forall k, ips | EndsAt(entries, name, k, ips) ensures k == n {
      if n < k {
        NothingBeyond(entries, name, n, k);
      }
    }
  }

  /** Position `k` of the chain is a name without an entry, or one that came up before. */
  ghost predicate Stuck(entries: seq<Entry>, name: string, k: nat) {
    var last := ChainAt(entries, name, k);
    last.Some? && (Found(entries, last.value).Miss? || exists j :: 0 <= j < k && ChainAt(entries, name, j) == last)
  }

  class Hosts {
    const trie: HostsTrie

    /** The entries the index was built from. */
    ghost const entries: seq<Entry>

    ghost predicate Valid() {
      trie.Represents(entries) && SafeAliases(entries) && |entries| <= Decimal.USIZE_MAX
    }

    constructor (parseIp: IpParser, lines: seq<seq<string>>)
      ensures entries == EntriesOf(parseIp, lines)
      ensures |EntriesOf(parseIp, lines)| <= TAG_LIMIT ==> Valid()
    {
      hide HostsTrie.Represents, SafeAliases;
      var built := BuildHostsTrie(parseIp, lines);
      LinesAreSafe(parseIp, lines);
      trie := built;
      entries := EntriesOf(parseIp, lines);
    }

    /** Follows aliases to addresses or to the name to ask the network for. Aliases may form cycles. */
    method ResolveHostName(name: string) returns (r: HostResolution)
      requires Valid()
      ensures forall ips :: r == Static(ips) <==> exists k :: EndsAt(entries, name, k, ips)
      ensures r.Network? ==> exists k :: ChainAt(entries, name, k) == Some(r.name) && Stuck(entries, name, k)
    {
      hide Found, SafeAliases, HostsTrie.Represents, ChainAt, Originals;
      var cur := name;
      var visited: set<string> := {};
      ghost var n := 0;
      ghost var all := {name} + Originals(entries);
      ChainStarts(entries, name);
      while true
        invariant ChainAt(entries, name, n) == Some(cur) && AliasesUpTo(entries, name, n)
        invariant forall s :: s in visited <==> exists j :: 0 <= j < n && ChainAt(entries, name, j) == Some(s)
        invariant visited <= all && cur in all
        decreases all - visited
      {
        if cur in visited {
          ghost var j :| 0 <= j < n && ChainAt(entries, name, j) == Some(cur);
          CycleHasNoEnd(entries, name, n, j);
          assert Stuck(entries, name, n);
          return Network(cur);
        }
        visited := visited + {cur};
        var found := trie.Lookup(cur, entries);
        match found {
          case Ips(ips) =>
            OnlyEnd(entries, name, n);
            assert EndsAt(entries, name, n, ips);
            return Static(ips);
          case Alias(original) =>
            FoundAlias(entries, cur);
            ChainGoesOn(entries, name, n);
            cur := original;
            n := n + 1;
          case Miss =>
            OnlyEnd(entries, name, n);
            assert Stuck(entries, name, n);
            return Network(cur);
        }
      }
    }

    method RespondData(parse: NameParser, ctx: QueryContext, ips: seq<IpAddr>)
      modifies ctx`response, ctx`action
      ensures ctx.response == Some(HostsAnswer(parse, ctx.msg, ctx.key, ips)) && ctx.action == "hosts"
    {
      var owner := parse(ctx.key.name);
      match owner {
        case None => ctx.response := Some(ServFailFor(ctx.msg));
        case Some(owner) =>
          var response := BuildHostsResponse(ctx.msg, owner, ctx.key.qtype, ips);
          ctx.response := Some(response);
      }
      ctx.action := "hosts";
    }

    /** Answers a query for a static name, or redirects it to the name behind an alias. */
    method Handle(strict: NameParser, parse: NameParser, ctx: QueryContext) returns (respond: bool)
      requires Valid()
      modifies ctx`response, ctx`action, ctx`originalName, ctx`key, ctx`msg
      ensures respond <==> DirectIps(entries, old(ctx.key.name)).Some?
      ensures respond ==>
                && ctx.response == Some(HostsAnswer(parse, old(ctx.msg), old(ctx.key),
                    DirectIps(entries, old(ctx.key.name)).value))
                && ctx.action == "hosts" && ctx.originalName == old(ctx.originalName)
                && ctx.key == old(ctx.key) && ctx.msg == old(ctx.msg)
      ensures !respond && !Found(entries, old(ctx.key.name)).Alias? ==> unchanged(ctx)
      ensures !respond && Found(entries, old(ctx.key.name)).Alias? ==>
                var original := Found(entries, old(ctx.key.name)).original;
                && ctx.originalName == Some(old(ctx.key.name)) && ctx.key == old(ctx.key).(name := original)
                && ctx.msg == (if strict(original).Some? then Asking(old(ctx.msg), strict(original).value)
                               else old(ctx.msg))
                && ctx.response == old(ctx.response) && ctx.action == old(ctx.action)
    {
      hide Found, SafeAliases, HostsTrie.Represents;
      var name := ctx.key.name;
      var found := trie.Lookup(name, entries);
      match found {
        case Miss => respond := false;
        case Ips(ips) =>
          RespondData(parse, ctx, ips);
          respond := true;
        case Alias(original) =>
          var behind := trie.Lookup(original, entries);
          match behind {
            case Ips(ips) =>
              RespondData(parse, ctx, ips);
              respond := true;
            case _ =>
              ctx.originalName := Some(name);
              ctx.RewriteName(original, strict(original));
              respond := false;
          }
      }
    }
  }

  lemma ChainStarts(entries: seq<Entry>, name: string)
    ensures ChainAt(entries, name, 0) == Some(name)
  {
  }

  lemma ChainGoesOn(entries: seq<Entry>, name: string, n: nat)
    requires ChainAt(entries, name, n).Some? && Found(entries, ChainAt(entries, name, n).value).Alias?
    ensures ChainAt(entries, name, n + 1) == Some(Found(entries, ChainAt(entries, name, n).value).original)
  {
  }

  // ---------------------------------------------------------------------------
  // Answering queries
  // ---------------------------------------------------------------------------

  /** Addresses for `name` itself or for the name one alias away. */
  function DirectIps(entries: seq<Entry>, name: string): Option<seq<IpAddr>> {
    match Found(entries, name)
    case Ips(ips) => Some(ips)
    case Miss => None
    case Alias(original) =>
      match Found(entries, original)
      case Ips(ips) => Some(ips)
      case _ => None
  }

  const HOSTS_TTL: nat := 300

  /** The record for one address, unless it is of a family that was not asked for. */
  function RecordFor(owner: Name, qtype: RecordType, ip: IpAddr): Option<Record> {
    match ip
    case V4(value) => if qtype.TypeA? || qtype.TypeANY? then Some(Record(owner, HOSTS_TTL, A(value))) else None
    case V6(value) => if qtype.TypeAAAA? || qtype.TypeANY? then Some(Record(owner, HOSTS_TTL, AAAA(value))) else None
  }

  function AddressRecords(owner: Name, qtype: RecordType, ips: seq<IpAddr>): seq<Record> {
    if ips == [] then [] else
    var last := RecordFor(owner, qtype, ips[|ips| - 1]);
    AddressRecords(owner, qtype, ips[..|ips| - 1]) + if last.Some? then [last.value] else []
  }

  method BuildHostsResponse(msg: Message, owner: Name, qtype: RecordType, ips: seq<IpAddr>) returns (response: Message)
    ensures response == ResponseBase(msg).(answers := AddressRecords(owner, qtype, ips))
  {
    response := ResponseBase(msg);
    for i := 0 to |ips|
      invariant response == ResponseBase(msg).(answers := AddressRecords(owner, qtype, ips[..i]))
    {
      assert ips[..i + 1][..i] == ips[..i];
      var record := RecordFor(owner, qtype, ips[i]);
      if record.Some? {
        response := response.(answers := response.answers + [record.value]);
      }
    }
    assert ips[..|ips|] == ips;
  }

  /** The answers are those for the addresses, in their order. */
  lemma {:induction false} AnswersInOrder(owner: Name, qtype: RecordType, a: seq<IpAddr>, b: seq<IpAddr>)
    ensures AddressRecords(owner, qtype, a + b) == AddressRecords(owner, qtype, a) + AddressRecords(owner, qtype, b)
    decreases |b|
  {
    hide AddressRecords, RecordFor;
    OneMoreAddress(owner, qtype, b);
    OneMoreAddress(owner, qtype, a + b);
    if b == [] {
      assert a + b == a;
    } else {
      var n := |b| - 1;
      AnswersInOrder(owner, qtype, a, b[..n]);
      assert (a + b)[..|a + b| - 1] == a + b[..n];
    }
  }

  lemma OneMoreAddress(owner: Name, qtype: RecordType, ips: seq<IpAddr>)
    ensures ips == [] ==> AddressRecords(owner, qtype, ips) == []
    ensures ips != [] ==>
              var last := RecordFor(owner, qtype, ips[|ips| - 1]);
              AddressRecords(owner, qtype, ips) ==
              AddressRecords(owner, qtype, ips[..|ips| - 1]) + if last.Some? then [last.value] else []
  {
    hide RecordFor;
  }

  /** An address is answered when its family is queried, under the queried name, with a TTL of 300. */
  lemma AnswerForAddress(owner: Name, qtype: RecordType, ip: IpAddr)
    ensures AddressRecords(owner, qtype, [ip]) ==
            match ip
            case V4(x) => if qtype in {TypeA, TypeANY} then [Record(owner, 300, A(x))] else []
            case V6(x) => if qtype in {TypeAAAA, TypeANY} then [Record(owner, 300, AAAA(x))] else []
  {
    assert [ip][..0] == [];
  }

  /** The response for a query named `key.name`: its addresses of the queried family, owned by that name. */
  function HostsAnswer(parse: NameParser, msg: Message, key: CacheKey, ips: seq<IpAddr>): Message {
    match parse(key.name)
    case None => ServFailFor(msg)
    case Some(owner) => ResponseBase(msg).(answers := AddressRecords(owner, key.qtype, ips))
  }

  /** SERVFAIL exactly when the name does not parse; otherwise only records of that name, without an error. */
  lemma HostsAnswerExactly(parse: NameParser, msg: Message, key: CacheKey, ips: seq<IpAddr>)
    ensures var r := HostsAnswer(parse, msg, key, ips);
            && r.id == msg.id && (r.rcode == ServFail <==> parse(key.name).None?)
            && (if parse(key.name).None? then r.answers == []
                else r.rcode == NoError
                     && r.answers == AddressRecords(parse(key.name).value, key.qtype, ips)
                     && forall a <- r.answers :: a.owner == parse(key.name).value)
  {
    if parse(key.name).Some? {
      OwnersOfAnswers(parse(key.name).value, key.qtype, ips);
    }
  }

  lemma {:induction false} OwnersOfAnswers(owner: Name, qtype: RecordType, ips: seq<IpAddr>)
    ensures forall a <- AddressRecords(owner, qtype, ips) :: a.owner == owner
  {
    if ips != [] {
      OwnersOfAnswers(owner, qtype, ips[..|ips| - 1]);
    }
  }

  /** A query is answered with some addresses exactly when the chain reaches them after at most one alias. */
  lemma AnsweredWithinOneAlias(entries: seq<Entry>, name: string, ips: seq<IpAddr>)
    ensures DirectIps(entries, name) == Some(ips) <==> EndsAt(entries, name, 0, ips) || EndsAt(entries, name, 1, ips)
  {
    hide Found;
    assert ChainAt(entries, name, 0) == Some(name);
  }

  /** Whatever a query is answered with is what the chain resolves to at startup. */
  lemma AnswersAgreeWithResolution(entries: seq<Entry>, name: string, ips: seq<IpAddr>, k: nat, end: seq<IpAddr>)
    requires DirectIps(entries, name) == Some(ips) && EndsAt(entries, name, k, end)
    ensures k <= 1 && end == ips
  {
    hide Found, ChainAt;
    AnsweredWithinOneAlias(entries, name, ips);
    ChainStarts(entries, name);
    var n := if EndsAt(entries, name, 0, ips) then 0 else 1;
    if n == 1 && !Found(entries, name).Alias? {
      NothingBeyond(entries, name, 0, 1);
    }
    OnlyEnd(entries, name, n);
  }

  // ---------------------------------------------------------------------------
  // Which line a stored domain follows
  // ---------------------------------------------------------------------------

  /** Entry `i` gives an address for `d`, as written up to leading wildcards. */
  predicate GivesAddress(entries: seq<Entry>, i: nat, d: string)
    requires i < |entries|
  {
    entries[i].Address? && TrimWildcard(entries[i].domain) == d
  }

  /** It is the first entry to do so. */
  predicate FirstAddress(entries: seq<Entry>, i: nat, d: string)
    requires i < |entries|
  {
    GivesAddress(entries, i, d) && forall h :: 0 <= h < i ==> !GivesAddress(entries, h, d)
  }

  /** Entry `i` decides where the dot-trimmed domain `key` leads: an alias line for it, or the first
      address line for one of its spellings. */
  predicate Takes(entries: seq<Entry>, i: nat, key: string)
    requires i < |entries|
  {
    match entries[i]
    case AliasFor(name, _) => TrimDots(name) == key
    case Address(domain, _) => TrimDots(TrimWildcard(domain)) == key && FirstAddress(entries, i, TrimWildcard(domain))
  }

  function TargetOf(e: Entry): Target {
    match e
    case AliasFor(_, original) => NameOf(original)
    case Address(domain, _) => AddressesOf(TrimWildcard(domain))
  }

  lemma {:induction false} HasAddressExactly(entries: seq<Entry>, d: string)
    ensures IpsFor(entries, d) != [] <==> exists i :: 0 <= i < |entries| && GivesAddress(entries, i, d)
  {
    hide TrimWildcard;
    if entries != [] {
      var n := |entries| - 1;
      HasAddressExactly(entries[..n], d);
      forall i | 0 <= i < n ensures GivesAddress(entries[..n], i, d) == GivesAddress(entries, i, d) {
      }
      assert GivesAddress(entries, n, d) <==> entries[n].Address? && TrimWildcard(entries[n].domain) == d;
    }
  }

  lemma TakesPrefix(entries: seq<Entry>, n: nat, i: nat, key: string)
    requires i < n <= |entries|
    ensures Takes(entries[..n], i, key) == Takes(entries, i, key)
  {
    hide TrimWildcard, TrimDots;
    forall h, d | 0 <= h <= i ensures GivesAddress(entries[..n], h, d) == GivesAddress(entries, h, d) {
    }
  }

  predicate SameAt(a: map<string, Target>, b: map<string, Target>, key: string) {
    (key in a <==> key in b) && (key in a ==> a[key] == b[key])
  }

  /** The last entry changes the table exactly at the domain it takes. */
  lemma LastEntry(entries: seq<Entry>, key: string)
    requires entries != []
    ensures var n := |entries| - 1; var before := TableOf(entries[..n]);
            if Takes(entries, n, key) then key in TableOf(entries) && TableOf(entries)[key] == TargetOf(entries[n])
            else SameAt(TableOf(entries), before, key)
  {
    hide TrimWildcard, TrimDots;
    var n := |entries| - 1;
    if entries[n].Address? {
      var d := TrimWildcard(entries[n].domain);
      HasAddressExactly(entries[..n], d);
      forall h | 0 <= h < n ensures GivesAddress(entries[..n], h, d) == GivesAddress(entries, h, d) {
      }
    }
  }

  /** A stored domain leads where the last entry that took it says. */
  lemma {:induction false} LastTakerDecides(entries: seq<Entry>, key: string, i: nat)
    requires i < |entries| && Takes(entries, i, key)
    requires forall j :: i < j < |entries| ==> !Takes(entries, j, key)
    ensures key in TableOf(entries) && TableOf(entries)[key] == TargetOf(entries[i])
  {
    hide TableOf, Takes;
    var n := |entries| - 1;
    LastEntry(entries, key);
    if i < n {
      TakesPrefix(entries, n, i, key);
      forall j | i < j < n ensures !Takes(entries[..n], j, key) {
        TakesPrefix(entries, n, j, key);
      }
      LastTakerDecides(entries[..n], key, i);
    }
  }

  lemma {:induction false} TakenBySome(entries: seq<Entry>, key: string) returns (i: nat)
    requires key in TableOf(entries)
    ensures i < |entries| && Takes(entries, i, key) && forall j :: i < j < |entries| ==> !Takes(entries, j, key)
  {
    hide TableOf, Takes;
    if entries == [] {
      NothingStored(key);
    }
    var n := |entries| - 1;
    LastEntry(entries, key);
    if Takes(entries, n, key) {
      i := n;
    } else {
      i := TakenBySome(entries[..n], key);
      TakesPrefix(entries, n, i, key);
      forall j | i < j < n ensures !Takes(entries, j, key) {
        TakesPrefix(entries, n, j, key);
      }
    }
  }

  lemma NothingStored(key: string)
    ensures key !in TableOf([])
  {
  }

  /** Domain `d` leads to its own addresses. */
  predicate LeadsTo(entries: seq<Entry>, d: string) {
    TrimDots(d) in TableOf(entries) && TableOf(entries)[TrimDots(d)] == AddressesOf(d)
  }

  /** A domain leads to its own addresses exactly when it has an address line and, after the first one,
      there is neither an alias line for it nor a first address line for another spelling of it. Further
      address lines of the domain itself do not win it back. */
  lemma LeadsToExactly(entries: seq<Entry>, d: string)
    ensures LeadsTo(entries, d) <==>
            exists i :: 0 <= i < |entries| && FirstAddress(entries, i, d)
                        && forall j :: i < j < |entries| ==> !Takes(entries, j, TrimDots(d))
  {
    hide TableOf, TrimWildcard, TrimDots;
    var key := TrimDots(d);
    if LeadsTo(entries, d) {
      var i := TakenBySome(entries, key);
      LastTakerDecides(entries, key, i);
      assert FirstAddress(entries, i, d);
    }
    if i :| 0 <= i < |entries| && FirstAddress(entries, i, d)
            && forall j :: i < j < |entries| ==> !Takes(entries, j, key) {
      LastTakerDecides(entries, key, i);
    }
  }

  lemma {:induction false} TakenIsStored(entries: seq<Entry>, key: string, i: nat)
    requires i < |entries| && Takes(entries, i, key)
    ensures key in TableOf(entries)
  {
    hide TableOf, Takes;
    var n := |entries| - 1;
    LastEntry(entries, key);
    if i < n {
      TakesPrefix(entries, n, i, key);
      TakenIsStored(entries[..n], key, i);
    }
  }

  /** Some entry takes the label-suffix `q` of the name that is searched. */
  ghost predicate IsTaken(entries: seq<Entry>, name: string, q: string) {
    q != "" && LabelSuffix(q, SearchedName(name)) && exists i :: 0 <= i < |entries| && Takes(entries, i, q)
  }

  /** Entry `i` is the last to take `key`, the longest taken label-suffix. */
  ghost predicate IsDecisive(entries: seq<Entry>, name: string, key: string, i: nat)
    requires i < |entries|
  {
    && IsTaken(entries, name, key) && (forall q :: IsTaken(entries, name, q) ==> |q| <= |key|)
    && Takes(entries, i, key) && forall j :: i < j < |entries| ==> !Takes(entries, j, key)
  }

  lemma StoredIsTaken(entries: seq<Entry>, name: string, q: string)
    ensures IsTaken(entries, name, q) <==>
            q != "" && LabelSuffix(q, SearchedName(name)) && q in TableOf(entries)
  {
    hide TableOf, Takes, SearchedName, LabelSuffix;
    if q in TableOf(entries) {
      var i := TakenBySome(entries, q);
    }
    if i :| 0 <= i < |entries| && Takes(entries, i, q) {
      TakenIsStored(entries, q, i);
    }
  }

  /** What a name leads to: the last entry that took its longest taken suffix decides. It is the original of an
      alias entry, or all addresses of the entry's domain; a name without a taken suffix leads nowhere. */
  lemma FoundExactly(entries: seq<Entry>, name: string, key: string, i: nat)
    ensures Found(entries, name).Miss? <==> forall q :: !IsTaken(entries, name, q)
    ensures i < |entries| && IsDecisive(entries, name, key, i) ==>
              Found(entries, name) ==
                if entries[i].AliasFor? then Alias(entries[i].original)
                else Ips(IpsFor(entries, TrimWildcard(entries[i].domain)))
  {
    hide TableOf, Takes, SearchedName, LabelSuffix, IsTaken, IpsFor, TrimWildcard;
    var table, d := TableOf(entries), SearchedName(name);
    LongestSuffixTagMeaning(table, d);
    forall q ensures IsTaken(entries, name, q) <==> q != "" && LabelSuffix(q, d) && q in table {
      StoredIsTaken(entries, name, q);
    }
    if i < |entries| && IsDecisive(entries, name, key, i) {
      LastTakerDecides(entries, key, i);
      EmptyIsShortest(table, d, key);
      LongestSuffixTagIs(table, d, key);
    }
  }

  lemma EmptyIsShortest(table: map<string, Target>, d: string, key: string)
    requires key != "" && key in table && LabelSuffix(key, d)
    requires forall q :: q in table && q != "" && LabelSuffix(q, d) ==> |q| <= |key|
    ensures IsLongest(table, d, key)
  {
    hide LabelSuffix;
  }

  lemma SpellingsOfA()
    ensures TrimDots("a") == "a" && TrimDots("a.") == "a" && TrimWildcard("a") == "a" && TrimWildcard("a.") == "a."
    ensures SearchedName("a") == "a"
  {
    hide TrimDots, TrimWildcard;
    TrimDotsKeeps("a");
    TrailingDot();
    NoWildcard("a");
    NoWildcard("a.");
    ShortName("a");
  }

  lemma ShortName(d: string)
    requires TrimDots(d) == d && |d| <= BUFFER_SIZE
    ensures SearchedName(d) == d
  {
    hide TrimDots, ToLower;
  }

  lemma NoWildcard(s: string)
    requires s != "" && s[0] != '*'
    ensures TrimWildcard(s) == s
  {
    var p := "*.";
    if |s| >= 2 {
      assert s[..2][0] == s[0] != p[0];
    }
  }

  lemma TrailingDot()
    ensures TrimDots("a.") == "a"
  {
    hide TrimEnd;
    var s := "a.";
    TrimEndIs(s, '.', "a");
    NoDotInFront(s);
  }

  lemma NoDotInFront(s: string)
    requires s != "" && s[0] != '.'
    ensures TrimStart(s, '.') == s
  {
  }

  /** What a stored name is found to mean is decided by the last entry that took it. */
  lemma FoundByLastTaker(entries: seq<Entry>, name: string, i: nat)
    requires i < |entries| && SearchedName(name) != "" && Takes(entries, i, SearchedName(name))
    requires forall j :: i < j < |entries| ==> !Takes(entries, j, SearchedName(name))
    ensures Found(entries, name) == TargetMeaning(entries, TargetOf(entries[i]))
  {
    hide TableOf, Takes, SearchedName, TargetMeaning;
    LastTakerDecides(entries, SearchedName(name), i);
    WholeIsLongest(TableOf(entries), SearchedName(name));
  }

  /** Another spelling takes a domain over without any alias line. */
  lemma OtherSpellingTakesOver(ip: IpAddr, other: IpAddr)
    ensures var entries := [Address("a", ip), Address("a.", other)];
            !LeadsTo(entries, "a") && Found(entries, "a") == Ips([other])
  {
    hide TableOf, TrimWildcard, TrimDots, SearchedName, Found, LeadsTo, IpsFor;
    var entries := [Address("a", ip), Address("a.", other)];
    SpellingsOfA();
    assert Takes(entries, 1, "a");
    FoundByLastTaker(entries, "a", 1);
    LastTakerDecides(entries, "a", 1);
    NotLeading(entries);
    NoIps("a.");
    OneMore([], Address("a", ip));
    OneMore([] + [Address("a", ip)], Address("a.", other));
    assert entries == [] + [Address("a", ip)] + [Address("a.", other)];
  }

  lemma NoIps(d: string)
    ensures IpsFor([], d) == []
  {
  }

  lemma NotLeading(entries: seq<Entry>)
    requires "a" in TableOf(entries) && TableOf(entries)["a"] == AddressesOf("a.")
    ensures !LeadsTo(entries, "a")
  {
    hide TableOf;
    SpellingsOfA();
  }

  /** An address line after an alias line does not count when the domain had an address before. */
  lemma LaterAddressIsLost(ip: IpAddr, other: IpAddr)
    ensures Found([Address("a", ip), AliasFor("a", "b"), Address("a", other)], "a") == Alias("b")
  {
    hide TableOf, TrimWildcard, TrimDots, SearchedName, Found, IpsFor;
    var entries := [Address("a", ip), AliasFor("a", "b"), Address("a", other)];
    SpellingsOfA();
    assert GivesAddress(entries, 0, "a");
    FoundByLastTaker(entries, "a", 1);
  }
}
