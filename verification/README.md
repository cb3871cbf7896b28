# rsdns: model and proofs

rsdns is a DNS forwarder. A query passes through a fixed pipeline: static hosts, domain groups, the
cache, the routing rules; then the answer is balanced, given back its queried name, and written to
the cache. These modules model that logic in Dafny and prove what holds of it for all inputs, all
configurations and all runs.

| modules | content |
|---|---|
| `Wrappers`, `Text`, `Decimal`, `Arithmetic`, `Dns`, `Query` | shared vocabulary: strings and labels, numbers, messages, the query context |
| `SuffixTrie` | the domain-suffix index and its builder |
| `Templates`, `RuleSelection`, `RuleRefinement`, `RuleActions`, `CnameChain` | routing rules: patterns, fast path against scan, actions, CNAME chains |
| `CacheRecords`, `QueryCache`, `CacheRuns` | what the cache keeps, how it is read and written, all its runs |
| `Base64Url`, `PercentEncoding` | the DNS-over-HTTPS query parameter |
| `Rotation`, `CircuitBreaker`, `UpstreamGroup`, `Addresses`, `ConnectionPool`, `PoolRuns` | upstream failover and connection reuse |
| `Bits`, `Cidr`, `StableSort`, `Balance` | address ranges and the reordering of answers |
| `Hosts` | hosts entries, aliases and alias chains |
| `LogTemplate` | query-log templates |
| `Pipeline`, `ServerRuns`, `ServerReads`, `ServerAges` | the whole query path, every interleaved run of it, which entry a question reads and for how long, and how long runs serve one answer |

Objects the program updates in place are classes whose methods are proved against functions; the
main theorems are lemmas about those functions and about runs built from them.

Where the code differs from its documentation, the model follows the code:

- Cache hits carry an action that starts with `forward`, so every hit re-inserts its entry. TTLs stay
  honest, but neither `min_ttl` nor `max_ttl` bounds an entry's age, and negative entries are renewed
  with a TTL of 300 by each hit (`CacheRuns`, and for the whole server `ServerAges`).
- The write-back is documented for upstream responses only; hits and the empty answers for types that a
  forward rule denies are stored too, and nothing else without an upstream answer
  (`ServerRuns.KeptWithoutUpstreamExactly`).
- An error code that comes with cacheable answers is lost in the cache (`CacheRecords.StoreThenRebuild`).
- The inline-domain index stores rule indices but reads them as positions in another list, and prefers
  the longest suffix to the first rule (`RuleRefinement`).
- The two balance passes take the queried families as the family to reorder: A and AAAA queries reorder
  both families, ANY queries reorder A twice and AAAA never (`Balance.PromiseKeptExactly`,
  `Balance.SpeedPromiseFails`).
- A pool sorts its addresses, which undoes the ranking of candidates (`Balance.RankingDoesNotReachPool`).
- Captures are numbered by position in the pattern (`Templates.NumberingIsPositional`).
- Percent escapes are decoded before base64url, not left to be rejected (`PercentEncoding.DecodeParameter`).
- An empty answer to the follow-up query keeps the original response (`CnameChain.IncompleteMeaning`).
- Names over 256 bytes are case-folded by the suffix index, shorter ones are not, and the scan of the rules
  never folds (`SuffixTrie.PathsAgreeExactly`, `RuleRefinement.RefinesOnExactly`).

Times are whole nanoseconds. Random numbers, connection times, upstream answers, clock readings and name
or address parsing are inputs: every statement holds for all of them.

## Model

| member | source | states |
|---|---|---|
| SuffixTrie.ReversedInjective | src/common/domain_trie.rs:29-44 | Reversing the labels of a name loses nothing: equal reversals come from equal names (reversal undoes itself, so stored keys never collide). |
| SuffixTrie.BoundaryIsSuffix | src/common/domain_trie.rs:154-163 | The prefixes of the reversed name that the scan probes are exactly the reversals of the name's label-suffixes. |
| SuffixTrie.DomainSuffixTrieBuilder.InternTag | src/common/domain_trie.rs:54-63 | A tag keeps its id for good; a new one gets the next position truncated to 32 bits. |
| SuffixTrie.DomainSuffixTrieBuilder.Insert | src/common/domain_trie.rs:46-52 | The latest tag of each dot-trimmed domain wins; other domains keep theirs. |
| SuffixTrie.DomainSuffixTrieBuilder.Build | src/common/domain_trie.rs:65-79 | With at most 2^32 tags, the index holds exactly the inserted domains with their latest tags. |
| SuffixTrie.LongestSuffixTagMeaning | src/common/domain_trie.rs:127-166 | The reference answer is the tag of the longest stored non-empty label-suffix of the name, and None exactly when no stored domain is one. |
| SuffixTrie.DomainSuffixTrie.FillBuffer | src/common/domain_trie.rs:133-152 | Writing the labels last to first into the 256-byte buffer stays inside it and leaves exactly the reversed name. |
| SuffixTrie.DomainSuffixTrie.Scan | src/common/domain_trie.rs:154-163 | The scan over label boundaries ends with the longest probe that is stored. |
| SuffixTrie.DomainSuffixTrie.LookupBig | src/common/domain_trie.rs:103-125 | The slow path finds the longest stored label-suffix of the dot-trimmed, lower-cased name. |
| SuffixTrie.DomainSuffixTrie.Lookup | src/common/domain_trie.rs:127-166 | A lookup finds the most recent tag of the longest stored label-suffix; only names longer than the buffer are case-folded. |
| SuffixTrie.PathsAgreeExactly | src/common/domain_trie.rs:103-166 | A lookup and the slow path return the same tag, whatever is stored, if and only if the name is over 256 bytes or has no upper-case letters. |
| Templates.ParseTemplate | src/plugins/rules.rs:207-247 | Parsing with its moving index gives the pattern or the error that the grammar of leading placeholders and a literal suffix prescribes. |
| Templates.ParsePrintedTemplate | src/plugins/rules.rs:207-247 | Parsing a printed well-formed pattern gives the pattern back. |
| Templates.ParsedIsWellFormed | src/plugins/rules.rs:207-264 | Whatever parses has a valid suffix and placeholders in range. |
| Templates.ValidDomainExactly | src/plugins/rules.rs:251-264 | A suffix is valid if and only if it is not empty, has only letters, digits, hyphens, underscores and dots, and no label is empty or starts with a hyphen. |
| Templates.ParsesExactly | src/plugins/rules.rs:207-264 | A text parses as pattern p if and only if p is well formed and the dotted segments are its numbers in braces, white space around them allowed, and then its suffix. |
| Templates.RejectedFor | src/plugins/rules.rs:207-264 | Which error each rejected text gets, by what follows its leading placeholders. |
| Templates.TemplateMatch | src/plugins/rules.rs:443-462 | The matching loop collects exactly the captures of the reference function. |
| Templates.CapturesMeaning | src/plugins/rules.rs:443-462 | A template matches if and only if the name is labels, a dot and the suffix with every requested label present and non-empty; the captures are those labels, counted back from the suffix. |
| Templates.SubstitutePlaceholders | src/plugins/rules.rs:466-494 | The substitution loop computes the reference substitution. |
| Templates.SubstituteStep | src/plugins/rules.rs:466-494 | A placeholder is replaced by its capture and the inserted text is never expanded again. |
| Templates.RebuildGivesParent | src/plugins/rules.rs:443-494 | With placeholders 1..k, substituting the captures into `{k}.….{1}.suffix` rebuilds a label-suffix of the queried name. |
| Templates.NumberingIsPositional | src/query.rs:78-81 | `{n}` names label number n, as the field's documentation says, if and only if the n-th placeholder of the pattern is n. |
| RuleSelection.BuildInlineTrie | src/plugins/rules.rs:403-424 | The list of inline rule indices, and, for up to 2^32 rules, an index of every inline domain with the printed index of its last owner. |
| RuleSelection.Rules.InlineHit | src/plugins/rules.rs:655-659 | The fast path uses the tag it finds as a position in the list of inline rules, as the code does. |
| RuleSelection.Rules.RuleMatches | src/plugins/rules.rs:374-395 | A rule hits exactly when its type is absent, ANY or the query's and its target is hit: always, by the query's group being the rule's, by a suffix domain, or by a pattern; a matching template leaves the captures of its first matching pattern, and nothing else changes them. |
| RuleSelection.MatchesExactly | src/plugins/rules.rs:365-395 | The same of the condition the in-order scan uses. |
| RuleSelection.GroupRuleSelection | src/plugins/rules.rs:382-383 | A group rule that is applied is the first one, among group rules without a type or with type ANY or the query's, that names the query's group; among group rules only, none is applied if and only if there is no such rule. |
| RuleSelection.Rules.Select | src/plugins/rules.rs:664-683 | The rule applied is the fast path's when its type matches, otherwise the first that matches in order, with that rule's captures. |
| RuleRefinement.SuffixMatchMeaning | src/plugins/rules.rs:431-435 | The string comparison of a scan is the label-suffix relation. |
| RuleRefinement.RefinesExactlyWhenSafe | src/plugins/rules.rs:655-683 | The fast path picks the rule the in-order scan picks, for every name, type and group, if and only if each proposal that an inline domain can cause is safe; for lower-case names with any configuration, and for all names that read alike. |
| RuleRefinement.InlineFirstIsSafe | src/plugins/rules.rs:403-424 | With the inline rules first and unrelated domains, fast path and scan agree on every name that reads alike: every name of up to 256 bytes and every lower-case one. |
| RuleRefinement.RefinesOnExactly | src/common/domain_trie.rs:103-140 | They agree on a name for all such configurations if and only if the name has at most 256 bytes or no valid domain it falls under has an upper-case letter. |
| RuleRefinement.MixedCaseExample | src/common/domain_trie.rs:138-140 | A name of 256 bytes in front of `.A` is given a rule for `a` that does not match it. |
| RuleRefinement.MisdirectionNeedsDisplacement | src/plugins/rules.rs:655-659 | For names that read alike, the fast path proposes a rule that does not match only if some inline rule stands behind a rule of another kind. |
| RuleRefinement.MisdirectedExactlyWhenDisplaced | src/plugins/rules.rs:410-411 | With unrelated domains, some name gets a non-matching rule if and only if such a displaced inline rule exists. |
| RuleRefinement.DisplacedExample | src/plugins/rules.rs:655-659 | One group rule in front of two inline rules: a query for the first one's domain is given the second rule. |
| RuleRefinement.LongestBeatsFirstExample | src/plugins/rules.rs:655-659 | Of two inline rules with nested domains, the longer suffix wins although the other rule comes first. |
| RuleActions.ApplyRule | src/plugins/rules.rs:705-820 | Each action leaves the response and the label its branch prescribes, errors included. |
| RuleActions.HandleCname | src/plugins/rules.rs:960-1005 | Denied types get nothing; an upstream failure leaves the CNAME alone; otherwise upstream's records and response code, in order with data and TTLs unchanged, under the query's id, question and name. It fails exactly when the substituted target does not parse. |
| RuleActions.ForwardQuery | src/plugins/rules.rs:828-853 | Succeeds exactly when upstream answers, and keeps the promise of a forward rule stated by ForwardKeepsPromise. |
| RuleActions.ForwardKeepsPromise | src/plugins/rules.rs:828-956 | Response code, id and question are upstream's. When an unfinished chain is followed to an address, the records are exactly the target's addresses under the queried name; otherwise upstream's own, in order, without a completed chain and with its addresses renamed. Data is never changed, and TTLs only by an override, which then sets all of them. |
| RuleActions.HandleRules | src/plugins/rules.rs:664-703 | The stage always answers: by the selected rule, or with NXDOMAIN. |
| RuleActions.OwnAnswersAreForTheQuery | src/plugins/util.rs:207-248 | Every answer that does not pass an upstream response on, those of denied and failed forwards included, carries the query's id and question, and on every record its name: as asked for cname rules, as spelled in the lower-case key for block and rewrite rules. |
| RuleActions.BlockedAnswers | src/plugins/util.rs:207-240 | A blocked query gets NXDOMAIN without answers; a poisoned one, per queried family, one unspecified address with TTL 300. |
| RuleActions.RewrittenAnswers | src/plugins/rules.rs:500-518 | A rewritten A or ANY query gets the one IPv4 address its template gives, with the rule's TTL; other types get an empty NOERROR answer. |
| RuleActions.RoutedAnswers | src/plugins/rules.rs:664-703 | NXDOMAIN without answers when no rule is selected; otherwise the selected rule answers, with the captures of its first matching pattern. |
| RuleActions.FollowupAsksForTarget | src/plugins/rules.rs:906-931 | The second query asks the rule's upstream for the target of the last CNAME in front, with the queried type. |
| RuleActions.LabelTells | src/plugins/rules.rs:705-820 | The action label names the kind of rule and, for a forward, its upstream and whether the type was denied, upstream answered, or it did not. |
| RuleActions.FailsExactly | src/plugins/rules.rs:705-820 | Such an answer is SERVFAIL if and only if the name or the target does not parse, or the upstream of a forward does not answer. |
| CnameChain.CollapseCompletedChain | src/plugins/rules.rs:1087-1099 | Drops the leading chain and renames the addresses behind it. |
| CnameChain.ResolveCnames | src/plugins/rules.rs:899-956 | The answers become the reference result for every kind of follow-up answer. |
| CnameChain.CompletedExactly | src/plugins/rules.rs:1053-1068 | A chain counts as completed if and only if there are CNAMEs in front, the last record that is none is an address, and its owner is the target of the last CNAME in front. |
| CnameChain.CollapseMeaning | src/plugins/rules.rs:1053-1099 | A completed chain collapses to a non-empty tail in order, data and TTLs unchanged, no leading CNAME, every address owned by the queried name. |
| CnameChain.ResolveTwice | src/plugins/rules.rs:899-956 | Resolving a collapsed answer again changes nothing, whatever upstream would say. |
| CnameChain.IncompleteMeaning | src/plugins/rules.rs:933-955 | Otherwise the answers are unchanged, or are addresses only, all with the queried owner; replaced exactly when a chain is followed to an address. |
| CnameChain.AddressesInOrder | src/plugins/rules.rs:1070-1081 | The addresses taken over are upstream's, in order, with data and TTL unchanged. |
| CnameChain.NoLeadingCname | src/plugins/rules.rs:899-956 | The result starts with a CNAME only if nothing was changed. |
| CacheRecords.ExtractCacheRecords | src/plugins/util.rs:75-103 | The loop keeps the cacheable records in order, or nothing. |
| CacheRecords.BuildResponse | src/plugins/util.rs:139-178 | The loop rebuilds answers under the query name with one TTL, failing when a kept name does not parse. |
| CacheRecords.CacheFixedPoint | src/plugins/util.rs:75-178 | Rebuilding a stored entry and storing the result keeps the same records, for positive, NXDOMAIN and NoData entries. |
| CacheRecords.AnswersSurvive | src/plugins/util.rs:75-178 | Storing and rebuilding preserves the ordered data of the cacheable answers. |
| CacheRecords.StoreThenRebuild | src/plugins/util.rs:111-178 | The rebuilt response has the cacheable answers under the query name; the response code survives if and only if it was NOERROR or nothing was cacheable. |
| QueryCache.DnsCache.Put | src/plugins/cache.rs:111-231 | Replaces one entry, which is then read for exactly its time: its TTL under `keep_ttl` or between the bounds, else the bound it lies beyond, in seconds; reads of all other keys are unchanged. |
| QueryCache.DnsCache.GetCached | src/plugins/cache.rs:199-217 | Reads an entry only before its deadline. |
| QueryCache.CacheUpstreamResponse | src/plugins/util.rs:111-136 | Stores positive records, or a mark for NXDOMAIN and empty NOERROR answers, and nothing for other errors. |
| QueryCache.Cache.Lookup | src/plugins/cache.rs:270-299 | Answers exactly when an entry is readable and the cache is not skipped; the store is untouched. |
| QueryCache.Cache.WriteBack | src/plugins/cache.rs:304-315 | Stores exactly the responses whose action starts with `forward`. |
| QueryCache.HitsAreForwards | src/plugins/cache.rs:77-86 | Every cache hit carries such an action, so every hit is written back. |
| QueryCache.ActionTellsWhatIsKept | src/plugins/cache.rs:77-86 | The action of a hit tells which kind of upstream answer was stored: records, NXDOMAIN, or an empty NOERROR one. |
| CacheRuns.RunKeepsInv | src/plugins/cache.rs:219-315 | In every run of ticks, evictions, lookups and write-backs, every entry's TTL ends within the life of the upstream answer it descends from plus its delays. |
| CacheRuns.TtlHonesty | src/plugins/cache.rs:88-98 | In every run a positive entry is answered with a TTL that ends no later than its upstream answer, plus the lookup-to-write-back delays of its lineage. |
| CacheRuns.TtlHonestyWithoutDelay | src/plugins/cache.rs:88-98 | The same without any slack when lookup and write-back of each hit share one instant. |
| CacheRuns.NoServiceAfterExpiry | src/plugins/cache.rs:111-119 | Without a minimum TTL, no positive entry is served after its upstream answer has run out, however often hits re-insert it. |
| CacheRuns.WrittenIsReadInTime | src/plugins/cache.rs:88-119 | In every run, an answer written back with least TTL T is read until its key is written or evicted, exactly while less time has passed than T seconds under `keep_ttl` or with T between the bounds, else than the bound T lies beyond; hits carry its records with T under `keep_ttl`, else with the whole seconds left of T. |
| CacheRuns.ExpiryRespectedExactly | src/plugins/cache.rs:111-119 | Upstream expiry is respected in every run if and only if TTLs are counted down and the minimum TTL is zero. |
| CacheRuns.ServedForEverExactly | src/plugins/cache.rs:304-315 | An upstream answer has runs that serve it beyond every age if and only if it is positive with counted-down TTLs and a minimum TTL, or it is readable at all and negative or under `keep_ttl`. |
| CacheRuns.AgeWithinMaxExactly | src/plugins/cache.rs:111-119 | No run serves undelayed answers of a given TTL beyond the maximum if and only if they are never readable, or TTLs are counted down, there is no minimum and that TTL is within the maximum. |
| CacheRuns.MaxTtlIsNoBound | src/plugins/cache.rs:304-315 | Under any positive maximum, an answer can be served for its own TTL, up to the last nanosecond (one nanosecond less per second when the maximum is one second). |
| CacheRuns.RenewedEntriesNeverExpire | src/plugins/util.rs:106-136 | Every hit renews a negative entry with the default TTL, and any entry with its own TTL under `keep_ttl`, so once readable it is served beyond any age. |
| CacheRuns.RunKeepsDescent | src/plugins/util.rs:75-178 | In every run an entry holds only records of the upstream answer it descends from. |
| Base64Url.DecodeBase64Url | src/server.rs:631-654 | Decodes exactly the canonical unpadded encodings of non-empty octet strings, although the accumulator keeps stale high bits. |
| Base64Url.OctetsOfEncoding | src/server.rs:631-654 | The octets of an encoding are the encoded octets, with only zero bits left over. |
| Base64Url.EncodingOfOctets | src/server.rs:631-654 | Sextets with zero left-over bits are the encoding of their octets: there is no second encoding. |
| Base64Url.EncodeInjective | src/server.rs:631-654 | Different octet strings have different encodings. |
| Base64Url.ShiftedOctets | src/server.rs:641-646 | The byte cut out of the unmasked 32-bit accumulator depends on the last two sextets only. |
| PercentEncoding.PercentDecode | src/server.rs:659-675 | The loop decodes every valid escape, copies everything else, and turns the bytes into text lossily. |
| PercentEncoding.EscapedByteExactly | src/server.rs:663-667 | The byte b is read at the front if and only if a percent sign and the digits at b / 16 and b % 16 of `0123456789ABCDEF` or `0123456789abcdef` stand there. |
| PercentEncoding.UnescapeUndoesEscape | src/server.rs:659-684 | A text decodes to s if and only if it writes s: each character as a percent sign and the two hexadecimal digits of its byte, in either case, or as it is where no escape starts. |
| PercentEncoding.DecodeParameter | src/server.rs:424-428 | Decodes to b if and only if b is not empty and the parameter writes the base64url encoding of b with any choice of its characters escaped. |
| CircuitBreaker.Breaker.RecordFailure | src/upstream/mod.rs:193-203 | Drops errors older than the window, counts this one, and starts a cooldown at the threshold. |
| CircuitBreaker.ErrorsAreCounted | src/upstream/mod.rs:193-207 | After every history the error list is exactly the in-window failures since the last success, as of the last failure. |
| CircuitBreaker.InCooldownExactly | src/upstream/mod.rs:189-207 | A client is skipped at t if and only if a failure less than a cooldown ago reached the threshold. |
| CircuitBreaker.CooldownNeverShortened | src/upstream/mod.rs:189-207 | No later event shortens a running cooldown, and a success does not lengthen it. |
| CircuitBreaker.TripsAtThreshold | src/upstream/mod.rs:199-202 | Below 2^32 failures, tripping needs exactly the threshold count. |
| UpstreamGroup.Group.RoundRobinOrder | src/upstream/mod.rs:255-262 | The order starts at the shared cursor, which moves on by one and wraps with the machine word. |
| UpstreamGroup.Group.Query | src/upstream/mod.rs:233-240 | Each mode has the result, the breaker states and the cursor of its reference. |
| UpstreamGroup.Group.QueryOrdered | src/upstream/mod.rs:266-299 | Whatever histories the breakers come from, only clients no failure of which tripped less than a cooldown ago are tried, in order: the first answer wins, else the first error; exactly the tried ones add the outcome to their histories. |
| UpstreamGroup.Group.QueryParallel | src/upstream/mod.rs:301-347 | The same for the racing clients, in the order their replies come in. |
| UpstreamGroup.FallbackByHistories | src/upstream/mod.rs:266-299 | The statement about histories for every order, configuration and set of replies. |
| UpstreamGroup.FirstWithoutFailureIsTried | src/upstream/mod.rs:275-277 | The first client of the order is tried if it has no recorded failure: its answer is the result. |
| UpstreamGroup.RaceIsReadyExactly | src/upstream/mod.rs:306-312 | The clients that race are each exactly those no failure of which tripped less than a cooldown ago. |
| UpstreamGroup.FallbackMeaning | src/upstream/mod.rs:266-299 | The first answer among the clients not cooling at entry wins, else the first error; breakers of later and cooling clients are untouched. |
| UpstreamGroup.NotConnectedExactly | src/upstream/mod.rs:118-141 | The group's error is of kind NotConnected if and only if no client that was not cooling answers, and there is no such client or the first of them reports NotConnected itself (its pool is exhausted). |
| UpstreamGroup.NotConnectedByAttempts | src/upstream/mod.rs:118-141 | The same by what becomes of the attempts: nobody answers, and the first candidate, if any, has an exhausted pool; a timeout or a broken exchange there gives another kind. |
| UpstreamGroup.NobodyTriedExactly | src/upstream/mod.rs:295-298 | Nobody is tried if and only if every client is cooling; the group then reports its own error and no breaker changes. |
| UpstreamGroup.ExhaustedPoolLooksCooling | src/upstream/mod.rs:118-123 | A single client that is tried and finds its pool exhausted leaves an error of the same kind. |
| UpstreamGroup.RoundRobinIsFairExactly | src/upstream/mod.rs:255-262 | Over any n consecutive round-robin queries, whatever they answer, each of n clients is tried first exactly once, if and only if the cursor does not wrap meanwhile or n divides the word size. |
| UpstreamGroup.RoundRobinIsFallback | src/upstream/mod.rs:233-299 | Each query of such a series is decided by the clients not cooling at its entry, in round-robin order. |
| UpstreamGroup.FirstClientServes | src/upstream/mod.rs:255-299 | A client that is not cooling and answers serves the query it is first in. |
| Rotation.TurnsCoverOnce | src/upstream/mod.rs:255-262 | A round-robin order lists every client exactly once. |
| Addresses.PoolAddressesMeaning | src/upstream/pool.rs:189-190 | The pool's list is strictly ascending and has exactly the given addresses. |
| Addresses.OrderDoesNotMatter | src/upstream/pool.rs:189-190 | Any two listings of the same addresses give the pool the same list. |
| ConnectionPool.Pool.NextAddr | src/upstream/pool.rs:214-221 | The address under the cursor, which then moves on. |
| ConnectionPool.Pool.Checkout | src/upstream/pool.rs:229-265 | Takes the newest unexpired connection, or tries addresses from the cursor on until one connects; None means every attempt failed. |
| ConnectionPool.Pool.Release | src/upstream/pool.rs:268-277 | A success puts the connection at the front of the cache, a failure discards it. |
| ConnectionPool.CheckoutGuard.Report | src/upstream/pool.rs:91-100 | Reports at most once: a guard that has reported holds nothing. |
| ConnectionPool.FullRoundExactly | src/upstream/pool.rs:248-264 | A failing round tries every address exactly once, if and only if the cursor does not wrap meanwhile or the count divides the word size. |
| PoolRuns.RunKeepsInv | src/upstream/pool.rs:72-277 | In every run each connection is in exactly one of the cache, one guard, or discarded; no guard releases twice; the cache is newest first. |
| PoolRuns.FailedNeverReturns | src/upstream/pool.rs:87-100 | A connection reported as failed is never cached or handed out again. |
| PoolRuns.CheckoutTakesNewest | src/upstream/pool.rs:229-245 | In every run a checkout finds an unexpired connection if there is one, and throws away only expired ones. |
| PoolRuns.ReturnedIsReusedExactly | src/upstream/pool.rs:66-70 | In every run, a connection that was given back is handed out again by a checkout at most the idle timeout later, and thrown away by a later one. |
| Cidr.ContainsMeaning | src/plugins/balance.rs:80-97 | A range contains exactly the addresses of its family that agree with it on the top prefix bits, at 32 and 128 bits, prefix 0 and full included. |
| Cidr.NestedOrDisjoint | src/plugins/balance.rs:80-97 | Two ranges of one family are nested or disjoint. |
| Bits.AndBits | src/plugins/balance.rs:83-91 | The mask operation is bitwise: a bit of the result is set if and only if it is set in both operands. |
| Bits.ShiftedOnes | src/plugins/balance.rs:83-91 | Shifting the all-ones word left leaves ones exactly at the top. |
| StableSort.StableOrderSorts | src/plugins/balance.rs:257-285 | The sort order lists every position once, by key, equal keys in their old order. |
| StableSort.StableOrderIsUnique | src/plugins/balance.rs:257-285 | There is only one such order. |
| Balance.CollectFamily | src/plugins/balance.rs:298-308 | Collects the slots and addresses of one family in answer order. |
| Balance.PermuteFamily | src/plugins/balance.rs:314-323 | Writes the family's slots in the given order and says whether anything moved. |
| Balance.RotateFamily | src/plugins/balance.rs:327-334 | Shifts the family so that the record at the start position comes first. |
| Balance.ReorderedMeaning | src/plugins/balance.rs:314-323 | Any reordering of a family permutes the answers, arranges the family as asked, and leaves every other slot alone. |
| Balance.PassKeeps | src/plugins/balance.rs:270-295 | A pass over one family permutes the answers and touches only that family's slots. |
| Balance.PassOrder | src/plugins/balance.rs:270-367 | The family ends as the stable sort by range rank when ranks differ; otherwise unchanged, rotated, or stably sorted by connection time with failures last. |
| Balance.PassSorts | src/plugins/balance.rs:270-367 | After a pass, addresses stand in the order of the first range that has them, those in none last, if they differ in that; otherwise, by connection time, in the order of their times, those without one last. |
| Balance.PassesCommute | src/plugins/balance.rs:233-234 | The passes over A and AAAA records commute. |
| Balance.PreferSortIsIdempotent | src/plugins/balance.rs:270-285 | Sorting by preference again changes nothing. |
| Balance.PassKeepsExactly | src/plugins/balance.rs:270-285 | Preferences change the answers if and only if the ranks are not in order already. |
| Balance.TwoPassesPermute | src/plugins/balance.rs:216-244 | Before the cap, the stage permutes the answers and moves only address records. |
| Balance.CapKeepsTheFront | src/plugins/balance.rs:237-243 | What leaves the stage is the front of the reordered answers, as many as the cap allows, all of them without a cap or with cap 0. |
| Balance.BothFamiliesForAddressQueries | src/plugins/balance.rs:233-234 | A and AAAA queries alike reorder both families. |
| Balance.AnyQuerySparesAaaa | src/plugins/balance.rs:233-234 | ANY queries never reorder the AAAA records. |
| Balance.StaysPutExactly | src/plugins/balance.rs:270-367 | No draw makes a pass change the answers if and only if the family's ranks are in order when they differ, and otherwise no mode runs or it cannot tell the family's records (rotation) or addresses (speed) apart. |
| Balance.PromiseKeptExactly | docs/design/2026-09-04-rsdns-balance.md:112-127 | The documented reordering (A queries A only, AAAA queries AAAA only, ANY both) is done for all draws, in every mode, if and only if no pass can disturb the family reordered or left out by mistake and, for ANY, the second A pass cannot either. |
| Balance.SpeedPromiseFails | docs/design/2026-09-04-rsdns-balance.md:127 | Two AAAA records and their connection times on which an A query reorders them and an ANY query does not. |
| Balance.Balance.BalanceFamily | src/plugins/balance.rs:270-295 | The in-place pass leaves the answers of the reference pass. |
| Balance.Balance.Handle | src/plugins/balance.rs:216-244 | The stage leaves the two passes and the cap of the reference, and nothing when it is off, skipped or not concerned. |
| Balance.Balance.RankIps | src/plugins/balance.rs:257-263 | Sorts candidate addresses stably by rank, those in no range last. |
| Balance.RankingDoesNotReachPool | src/upstream/mod.rs:893-898 | Ranking the candidates has no effect on the pool, which sorts them itself: it has each candidate at the port, once. |
| Hosts.HostsTrieBuilder.Insert | src/plugins/hosts.rs:83-94 | Appends the address to its domain's list; the first one also stores the domain. |
| Hosts.HostsTrieBuilder.ParseHostsLine | src/plugins/hosts.rs:118-134 | Consumes address lines and empty ones, adding one entry per domain. |
| Hosts.HostsTrieBuilder.ParseAliasLine | src/plugins/hosts.rs:141-160 | Adds an alias per name except the original itself; lines whose original is an address or a number are skipped. |
| Hosts.LineExactly | src/plugins/hosts.rs:118-160 | A line of an address gives it to each further word in order; a line of anything else but a number makes its further words, except the first word itself, aliases of the first. |
| Hosts.LinesInOrder | src/plugins/hosts.rs:163-181 | The entries of a file come in the order of its lines. |
| Hosts.TrimWildcardExactly | src/plugins/hosts.rs:84 | All leading `*.` of a domain are dropped. |
| Hosts.AddressesInOrder | src/plugins/hosts.rs:83-94 | Addresses of a domain accumulate in the order of the lines. |
| Hosts.LinesAreSafe | src/plugins/hosts.rs:150-153 | Whatever the lines say, no alias tag reads as a number. |
| Hosts.HostsTrie.Lookup | src/plugins/hosts.rs:53-65 | The numbered tags mean what the entries say: the domain's addresses, the alias's original, or a miss; every numeric tag indexes an existing list. |
| Hosts.Hosts.ResolveHostName | src/plugins/hosts.rs:295-310 | Terminates on cyclic aliases; Static if and only if the chain reaches addresses; Network names a name without an entry or one met before. |
| Hosts.CycleHasNoEnd | src/plugins/hosts.rs:299-303 | A chain that comes back to an earlier name never reaches addresses. |
| Hosts.Hosts.Handle | src/plugins/hosts.rs:252-269 | Answers for addresses directly or one alias away, redirects other aliases, and otherwise leaves the query alone. |
| Hosts.BuildHostsResponse | src/plugins/util.rs:181-204 | The addresses of the queried family in order, under the queried name. |
| Hosts.AnswersInOrder | src/plugins/util.rs:190-201 | Answers follow the order of the addresses. |
| Hosts.AnswerForAddress | src/plugins/util.rs:190-201 | An address is answered, with TTL 300, if and only if its family or ANY is queried. |
| Hosts.HostsAnswerExactly | src/plugins/hosts.rs:272-290 | SERVFAIL if and only if the name does not parse; otherwise its address records and no error. |
| Hosts.AnsweredWithinOneAlias | src/plugins/hosts.rs:252-269 | A query is answered if and only if its chain reaches addresses after at most one alias. |
| Hosts.AnswersAgreeWithResolution | src/plugins/hosts.rs:252-310 | Whenever the stage answers, chain resolution gives the same addresses. |
| Hosts.LastTakerDecides | src/plugins/hosts.rs:83-100 | A stored domain leads where the last line that took it says: an alias line, or the first address line of one of its spellings. |
| Hosts.FoundExactly | src/plugins/hosts.rs:53-65 | A name leads where the last line that took its longest taken label-suffix says: to the original of an alias, or to all addresses of the line's domain; a name without one leads nowhere. |
| Hosts.LeadsToExactly | src/plugins/hosts.rs:83-100 | A domain leads to its own addresses if and only if it has an address line and no alias line for it, nor a first address line of another dotted spelling, comes after the first one. |
| Hosts.OtherSpellingTakesOver | src/plugins/hosts.rs:83-94 | Addresses for `a.` take over `a` without any alias line. |
| Hosts.LaterAddressIsLost | src/plugins/hosts.rs:83-100 | After an alias line, a further address line does not bring the domain's addresses back. |
| LogTemplate.CompileTemplate | src/plugins/logs.rs:81-113 | The loop computes the reference segments. |
| LogTemplate.CompileIsLossless | src/plugins/logs.rs:81-113 | Printing the compiled segments gives the template back, for every string. |
| LogTemplate.CompiledIsNormal | src/plugins/logs.rs:81-113 | No literal is empty and no two literals are adjacent. |
| LogTemplate.CompilePrintedExactly | src/plugins/logs.rs:50-113 | Compiling undoes printing if and only if no literal is empty or next to another, no closed pair of braces in a literal encloses a known key, and none is left open before a placeholder. |
| LogTemplate.BracesAreFilledIn | src/plugins/logs.rs:81-178 | In a line, the first closed pair of braces gives the value of the field it names, or stays when it names none; the text before it stays, what follows is treated alike. |
| LogTemplate.OtherTextStays | src/plugins/logs.rs:81-178 | Text without a closed pair of braces comes out unchanged. |
| LogTemplate.FormatInto | src/plugins/logs.rs:141-178 | A line is the literals with each placeholder replaced by its value. |
| Query.QueryContext.RewriteName | src/query.rs:130-137 | Redirects key and question; the question only when the name parses. |
| Pipeline.Server.FindAnswer | src/server.rs:518-528 | Hosts, groups, cache and rules in order leave the finding of the reference. |
| Pipeline.Server.RestoreName | src/server.rs:541-552 | Puts the client's name on question and answers after an alias. |
| Pipeline.Server.Answer | src/server.rs:493-556 | Each query with a question gets the reference reply, whose key, source and balancing ReplyIsKeyedByQuestion and ReplyIsBalanced state; one without gets none. |
| Pipeline.Server.HandleQuery | src/server.rs:481-586 | The reply, and a store changed only by writing that reply back. |
| Pipeline.AliasIsPresentedAsAsked | src/server.rs:541-556 | After an alias the question and every owner are the client's name (when it parses), the id is the query's, and the cache key is the name behind the alias. |
| Pipeline.ReplyIsKeyedByQuestion | src/server.rs:501-505 | A reply is keyed by the type of the question and by its lower-cased name without trailing dots, or by the original when that name is an alias that hosts do not answer. |
| Pipeline.SameEntryExactly | src/server.rs:501-505 | Two questions read the same cache entry if and only if their types and their names behind hosts agree. |
| Pipeline.CacheUsesOneKey | src/plugins/cache.rs:275-315 | A query reads and writes the cache under one key only. |
| Pipeline.OfferedExactly | src/plugins/cache.rs:304-315 | A reply is offered to the cache if and only if it comes from the cache or a forward rule and the group does not skip the cache. |
| ServerRuns.ForwardAsksBehindHosts | src/server.rs:505-528 | On a miss the rule is selected by the name behind hosts and the queried type; a forward asks upstream for the original of an alias, if that parses, with that type, and its answer gives the response code, its silence SERVFAIL. |
| ServerRuns.KeptExactly | src/plugins/util.rs:111-136 | A reply leaves a cache entry if and only if the hosts stage did not answer, the group keeps the cache, and it is a hit whose records still parse, or a forward rule denies the type, or upstream answered a forward with a cacheable record or a negative code. |
| ServerRuns.KeptWithoutUpstreamExactly | src/plugins/cache.rs:301-315 | Replies that rest on no upstream answer enter the cache, contrary to the documentation, if and only if they are such hits or denied types; an unanswered forward is offered and leaves nothing. |
| ServerRuns.ServerRunIsCacheRun | src/server.rs:481-586 | Every run of the server, queries interleaved, is a run of the cache model: same clock, same store, matching pending replies. |
| ServerRuns.ServedTtlsAreHonest | src/server.rs:518-578 | In every server run, every TTL in an answer from the cache ends within the life of its upstream answer plus its lineage's delays. |
| ServerRuns.ReplyIsBalanced | src/server.rs:518-556 | Every reply has the query's id and the response code that hosts, cache or rules found; its answers are the found ones, balanced for the queried type unless the hit or the group skips that, with only their owners changed. |
| ServerRuns.EntriesGoBackToForwardRules | src/plugins/cache.rs:304-315 | In every server run, each cached key belongs to a query answered by a forward rule: hosts, block, cname, rewrite and no-match answers never enter. |
| ServerReads.SettledAnswerIsServed | src/plugins/cache.rs:111-119 | In every server run, once a keepable reply is written back and until its key is written or evicted, each question of the same type and the same name behind hosts is answered from the cache exactly while less time has passed than the reply's least TTL allows, in seconds as stated by CacheRuns.WrittenIsReadInTime, and with the whole seconds left of it. |
| ServerReads.OthersAreUndisturbed | src/server.rs:501-505 | Writing a reply back never changes whether or how a question of another type, or for another name behind hosts, is answered. |
| ServerAges.ServesForEver | src/server.rs:518-578 | The server has runs, asking upstream once, that serve its answer past every age: a positive one with a minimum TTL, and any readable one that is negative or under `keep_ttl`. |
| ServerAges.OutlivesMax | src/server.rs:518-578 | The server has runs, asking upstream once, that serve an answer over the maximum TTL whenever its own TTL is over it. |
| ServerAges.ForwardedNamesOutliveUpstream | src/plugins/cache.rs:304-315 | With a minimum TTL or under `keep_ttl`, every name that a forward rule answers has such a run. |
| ServerAges.ForwardedNamesKeepNxdomain | src/plugins/util.rs:106-136 | Every such name has a run in which NXDOMAIN is served past every age, if entries of the default TTL are readable. |
| ServerAges.ForwardedNamesOutliveMax | src/plugins/cache.rs:304-315 | Every such name has a run in which an answer is served over the maximum TTL. |

## Left out

- Sockets, TLS, HTTP, QUIC, timeouts and scheduling: an upstream query is an answer or a failure, a connection attempt a success or a failure.
- Wire format, name syntax and record kinds outside the model: names are label lists, conversions are parameters; `Codec.RoundTrips` states what the fixed-point results need of them.
- moka and fst: a map with deadlines plus arbitrary evictions, and a map from reversed names to ids.
- File watching, reloading, splitting lines into words, comments, configuration parsing, metrics and log output.
- EDNS client subnets and the replacement of Cloudflare ECH parameters on forwarded answers.
- The groups stage beyond its effect: which group a name is in, and what that switches off, is a function of the name.
- The SERVFAIL for a pipeline without an answer: the rules stage always answers, so it is never reached.
- CacheRuns.TtlHonesty: states nothing for `keep_ttl`, where TTLs are not counted down by design; how long answers are then served is in `ServedForEverExactly`.
- CacheRuns.ExpiryRespectedExactly: needs a name codec that round-trips for the direction that builds a run.
- Hosts.BuildHostsTrie: promises the index for at most 2^32 entries, the range of tag ids.
- RuleRefinement.RefinesExactlyWhenSafe: for names in mixed case, supposes that listed domains and template suffixes with upper-case letters leave room for the template's labels within 256 bytes; lower-case names need no such thing.
- RuleSelection.BuildInlineTrie: promises the index for at most 2^32 rules, the range of tag ids.
- RuleRefinement.MisdirectedExactlyWhenDisplaced: supposes that listed domains with upper-case letters have at most 256 bytes; no name that reads alike falls under a longer one.
- ConnectionPool.FullRoundExactly: is about uninterrupted checkouts; two at once share the cursor and may skip an address.
- Templates.CapturesMeaning: counts labels without a 32-bit limit; a name has at most 127.
- PercentEncoding.PercentDecode: the conversion of bytes to text is a parameter of which `DecodeParameter` needs only what it does to ASCII.
- UpstreamGroup.Group.QueryOrdered: breakers change only through the modelled call; queries running at the same time are not interleaved.
- Balance.Balance.Handle: sorting is the library's stable sort, taken as the unique stable order; TTLs and counts are unbounded numbers.
