/**
 The domain-suffix index: domains are stored under their labels in reverse order, so that
 the stored domains a name falls under are prefixes of the reversed name.
*/
module SuffixTrie {
  import opened Wrappers
  import opened Text

  /** Tag ids are 32-bit. */
  const TAG_LIMIT: nat := 0x1_0000_0000

  /** Names up to this many bytes are reversed in a stack buffer. */
  const BUFFER_SIZE: nat := 256

  /** The labels of `s` in reverse order. */
  function Reversed(s: string): string {
    Join(Reverse(Split(s, '.')), '.')
  }

  // ---------------------------------------------------------------------------
  // Label reversal is an involution that turns suffixes into prefixes
  // ---------------------------------------------------------------------------

  lemma ReversedLabel(s: string)
    requires '.' !in s
    ensures Reversed(s) == s
  {
    SplitWhole(s, '.');
  }

  lemma ReversedConcat(a: string, b: string)
    ensures Reversed(a + "." + b) == Reversed(b) + "." + Reversed(a)
  {
    SplitConcat(a, b, '.');
    ReverseConcat(Split(a, '.'), Split(b, '.'));
    JoinConcat(Reverse(Split(b, '.')), Reverse(Split(a, '.')), '.');
  }

  lemma {:induction false} ReversedTwice(s: string)
    ensures Reversed(Reversed(s)) == s
    ensures |Reversed(s)| == |s|
    decreases |s|
  {
    var i := IndexOf(s, '.');
    if i == |s| {
      ReversedLabel(s);
    } else {
      var a, b := s[..i], s[i + 1..];
      assert s == a + "." + b;
      ReversedLabel(a);
      ReversedTwice(b);
      ReversedConcat(a, b);
      ReversedConcat(Reversed(b), a);
    }
  }

  lemma ReversedInjective(s: string, t: string)
    requires Reversed(s) == Reversed(t)
    ensures s == t
  {
    ReversedTwice(s);
    ReversedTwice(t);
  }

  /** The lookup probes the first `j` bytes exactly when a label ends there. */
  predicate Boundary(rev: string, j: nat) {
    1 <= j <= |rev| && (j == |rev| || rev[j] == '.')
  }

  /** The probes of the reversed name are the reversals of the label-suffixes of the name. */
  lemma BoundaryIsSuffix(d: string, j: nat)
    requires 1 <= j <= |d|
    ensures |Reversed(d)| == |d|
    ensures Boundary(Reversed(d), j) <==> LabelSuffix(d[|d| - j..], d)
    ensures Boundary(Reversed(d), j) ==> Reversed(d)[..j] == Reversed(d[|d| - j..])
  {
    hide Reversed;
    ReversedTwice(d);
    var rev, p := Reversed(d), d[|d| - j..];
    if j == |d| {
      assert p == d && rev[..j] == rev;
    } else {
      if rev[j] == '.' {
        var x, y := rev[..j], rev[j + 1..];
        assert rev == x + "." + y;
        ReversedConcat(x, y);
        ReversedTwice(x);
        ReversedTwice(y);
        assert d == Reversed(y) + "." + Reversed(x);
        assert p == Reversed(x);
        ReversedTwice(x);
      }
      if LabelSuffix(p, d) {
        LabelSuffixParts(p, d);
        var q := d[..|d| - j - 1];
        ReversedConcat(q, p);
        ReversedTwice(p);
        assert rev == Reversed(p) + "." + Reversed(q);
      }
    }
  }

  // ---------------------------------------------------------------------------
  // What a lookup answers
  // ---------------------------------------------------------------------------

  /** The tag of the longest non-empty label-suffix of `d` in `table`. */
  function LongestSuffixTag<V>(table: map<string, V>, d: string): (r: Option<V>)
    decreases |d|
  {
    if d == "" then None
    else if d in table then Some(table[d])
    else
      var i := IndexOf(d, '.');
      if i == |d| then None else LongestSuffixTag(table, d[i + 1..])
  }

  /** `p` is the longest non-empty label-suffix of `d` that `table` holds. */
  ghost predicate IsLongest<V>(table: map<string, V>, d: string, p: string) {
    && p != "" && p in table && LabelSuffix(p, d)
    && forall q :: q in table && LabelSuffix(q, d) ==> |q| <= |p|
  }

  /** A label-suffix other than the whole lies behind the first dot. */
  lemma SuffixBehindDot(q: string, d: string)
    requires LabelSuffix(q, d) && q != d
    ensures var i := IndexOf(d, '.');
            i < |d| && LabelSuffix(q, d[i + 1..])
  {
    hide IndexOf;
    var i, n := IndexOf(d, '.'), |d| - |q| - 1;
    assert d[|d| - |q|..] == q;
    assert n >= 0 by {
      assert d[0..] == d;
    }
    assert n >= i by {
      assert forall k :: 0 <= k < i ==> d[k] == d[..i][k];
    }
    assert d[i + 1..][|d| - i - 1 - |q|..] == d[|d| - |q|..];
  }

  lemma RestIsSuffix(d: string)
    requires IndexOf(d, '.') < |d|
    ensures LabelSuffix(d[IndexOf(d, '.') + 1..], d)
  {
    hide IndexOf;
  }

  lemma LongestOfRest<V>(table: map<string, V>, d: string, p: string)
    requires d != "" && d !in table && IndexOf(d, '.') < |d| && IsLongest(table, d[IndexOf(d, '.') + 1..], p)
    ensures IsLongest(table, d, p)
  {
    hide IndexOf, LabelSuffix;
    var t := d[IndexOf(d, '.') + 1..];
    RestIsSuffix(d);
    LabelSuffixTransitive(p, t, d);
    forall q | q in table && LabelSuffix(q, d) ensures |q| <= |p| {
      SuffixBehindDot(q, d);
    }
  }

  lemma {:induction false} LongestSuffixTagMeaning<V>(table: map<string, V>, d: string)
    ensures LongestSuffixTag(table, d).None? <==>
            forall q :: q in table && q != "" ==> !LabelSuffix(q, d)
    ensures LongestSuffixTag(table, d).Some? ==>
            exists p :: IsLongest(table, d, p) && table[p] == LongestSuffixTag(table, d).value
    decreases |d|
  {
    hide IndexOf, LabelSuffix;
    if d == "" {
      EmptyName(table);
    } else if d in table {
      WholeIsStored(table, d);
    } else {
      var i := IndexOf(d, '.');
      forall q | q in table && q != "" && LabelSuffix(q, d)
        ensures i < |d| && LabelSuffix(q, d[i + 1..])
      {
        SuffixBehindDot(q, d);
      }
      if i < |d| {
        var t := d[i + 1..];
        LongestSuffixTagMeaning(table, t);
        RestIsSuffix(d);
        forall q | LabelSuffix(q, t) ensures LabelSuffix(q, d) {
          LabelSuffixTransitive(q, t, d);
        }
        if LongestSuffixTag(table, t).Some? {
          var p :| IsLongest(table, t, p) && table[p] == LongestSuffixTag(table, t).value;
          LongestOfRest(table, d, p);
        }
      }
    }
  }

  lemma EmptyName<V>(table: map<string, V>)
    ensures forall q :: q in table && q != "" ==> !LabelSuffix(q, "")
  {
  }

  lemma WholeIsStored<V>(table: map<string, V>, d: string)
    requires d != "" && d in table
    ensures LabelSuffix(d, d) && IsLongest(table, d, d)
  {
  }

  /** A longest entry determines the answer. */
  lemma LongestSuffixTagIs<V>(table: map<string, V>, d: string, p: string)
    requires IsLongest(table, d, p)
    ensures LongestSuffixTag(table, d) == Some(table[p])
  {
    LongestSuffixTagMeaning(table, d);
    var q :| IsLongest(table, d, q) && table[q] == LongestSuffixTag(table, d).value;
    assert |p| == |q| && p == d[|d| - |p|..] == q;
  }

  // ---------------------------------------------------------------------------
  // ASCII case folding, applied to over-long names only
  // ---------------------------------------------------------------------------

  function LowerChar(c: char): char {
    if 'A' <= c <= 'Z' then c + 32 as char else c
  }

  function ToLower(s: string): (r: string)
    ensures |r| == |s|
    ensures forall i :: 0 <= i < |s| ==> r[i] == LowerChar(s[i])
  {
    seq(|s|, i requires 0 <= i < |s| => LowerChar(s[i]))
  }

  predicate NoUpper(s: string) {
    forall i :: 0 <= i < |s| ==> !('A' <= s[i] <= 'Z')
  }

  lemma ToLowerKeeps(s: string)
    requires NoUpper(s)
    ensures ToLower(s) == s
  {
  }

  /** The name a lookup of `domain` really searches for. */
  function SearchedName(domain: string): string {
    var d := TrimDots(domain);
    if |d| > BUFFER_SIZE then ToLower(d) else d
  }

  // ---------------------------------------------------------------------------
  // Builder
  // ---------------------------------------------------------------------------

  /** What a position in the tag list becomes when it is stored as an id. */
  function IdAt(position: nat): (id: nat)
    ensures id < TAG_LIMIT && (position - id) % 0x1_0000_0000 == 0
  {
    position % TAG_LIMIT
  }

  /** Interned tags sit at their position, and their ids are truncated positions. */
  ghost predicate Interned(idToTag: seq<string>, tagToId: map<string, nat>, position: map<string, nat>) {
    && position.Keys == tagToId.Keys
    && forall t :: t in position ==>
                     position[t] < |idToTag| && idToTag[position[t]] == t && tagToId[t] == IdAt(position[t])
  }

  /** The index holds the reversals of the domains of `table`, each with the id of its tag. */
  ghost predicate Indexed(items: map<string, nat>, tagToId: map<string, nat>, table: map<string, string>) {
    && (forall d :: d in table ==>
                      && table[d] in tagToId
                      && Reversed(d) in items && items[Reversed(d)] == tagToId[table[d]])
    && (forall k :: k in items ==> exists d :: d in table && Reversed(d) == k)
  }

  lemma IndexedAdd(items: map<string, nat>, tagToId: map<string, nat>, table: map<string, string>,
                   d: string, tag: string)
    requires Indexed(items, tagToId, table) && tag in tagToId
    ensures Indexed(items[Reversed(d) := tagToId[tag]], tagToId, table[d := tag])
  {
    hide Reversed;
    forall e | e in table && Reversed(e) == Reversed(d) ensures e == d {
      ReversedInjective(e, d);
    }
  }

  class DomainSuffixTrieBuilder {
    var items: map<string, nat>
    var tagToId: map<string, nat>
    var idToTag: seq<string>

    /** Tag most recently inserted for each dot-trimmed domain. */
    ghost var table: map<string, string>
    /** Position of each interned tag in `idToTag`. */
    ghost var position: map<string, nat>

    ghost predicate Valid()
      reads this
    {
      && Interned(idToTag, tagToId, position)
      && Indexed(items, tagToId, table)
    }

    constructor ()
      ensures Valid() && table == map[] && idToTag == []
    {
      items, tagToId, idToTag := map[], map[], [];
      table, position := map[], map[];
    }

    /** The id of `tag`, interning it on first use; ids are truncated to 32 bits. */
    method InternTag(tag: string) returns (id: nat)
      requires Valid()
      modifies this`tagToId, this`idToTag, this`position
      ensures Valid()
      ensures tag in tagToId && id == tagToId[tag]
      ensures forall t :: t in old(tagToId) ==> t in tagToId && tagToId[t] == old(tagToId[t])
      ensures tag in old(tagToId) ==> idToTag == old(idToTag)
      ensures tag !in old(tagToId) ==> idToTag == old(idToTag) + [tag] && id == IdAt(|old(idToTag)|)
    {
      hide Reversed;
      if tag in tagToId {
        return tagToId[tag];
      }
      id := IdAt(|idToTag|);
      tagToId := tagToId[tag := id];
      position := position[tag := |idToTag|];
      idToTag := idToTag + [tag];
    }

    /** Later insertions of the same domain win; dots around the domain do not matter. */
    method Insert(domain: string, tag: string)
      requires Valid()
      modifies this
      ensures Valid()
      ensures table == old(table)[TrimDots(domain) := tag]
      ensures tag in tagToId
      ensures idToTag == if tag in old(tagToId) then old(idToTag) else old(idToTag) + [tag]
    {
      hide Reversed, TrimDots, Indexed, Interned;
      var id := InternTag(tag);
      var d := TrimDots(domain);
      IndexedAdd(items, tagToId, table, d, tag);
      items := items[Reversed(d) := id];
      table := table[d := tag];
    }

    method Build() returns (trie: DomainSuffixTrie)
      requires Valid()
      ensures |idToTag| <= TAG_LIMIT ==> trie.Represents(table)
    {
      hide Interned, Indexed, DomainSuffixTrie.Represents;
      trie := DomainSuffixTrie(items, idToTag);
      if |idToTag| <= TAG_LIMIT {
        IdsAreTags(idToTag, tagToId, position);
        IndexRepresents(trie, tagToId, table);
      }
    }
  }

  /** As long as ids are not truncated, each tag is found at its id. */
  lemma IdsAreTags(idToTag: seq<string>, tagToId: map<string, nat>, position: map<string, nat>)
    requires Interned(idToTag, tagToId, position) && |idToTag| <= TAG_LIMIT
    ensures forall t :: t in tagToId ==> tagToId[t] < |idToTag| && idToTag[tagToId[t]] == t
  {
    forall t | t in tagToId ensures tagToId[t] < |idToTag| && idToTag[tagToId[t]] == t {
      assert t in position;
    }
  }

  lemma IndexRepresents(trie: DomainSuffixTrie, tagToId: map<string, nat>, table: map<string, string>)
    requires Indexed(trie.items, tagToId, table)
    requires forall t :: t in tagToId ==> tagToId[t] < |trie.idToTag| && trie.idToTag[tagToId[t]] == t
    ensures trie.Represents(table)
  {
    hide Reversed;
  }

  // ---------------------------------------------------------------------------
  // Lookup
  // ---------------------------------------------------------------------------

  datatype DomainSuffixTrie = DomainSuffixTrie(items: map<string, nat>, idToTag: seq<string>) {

    /** The index answers for exactly the domains of `table`. */
    ghost predicate Represents(table: map<string, string>) {
      && (forall d :: d in table ==>
                        && Reversed(d) in items && items[Reversed(d)] < |idToTag|
                        && idToTag[items[Reversed(d)]] == table[d])
      && (forall k :: k in items ==> exists d :: d in table && Reversed(d) == k)
    }

    function TagOf(id: Option<nat>): Option<string> {
      if id.Some? && id.value < |idToTag| then Some(idToTag[id.value]) else None
    }

    lemma ProbeFinds(table: map<string, string>, d: string, j: nat)
      requires Represents(table) && 1 <= j <= |d| && Boundary(Reversed(d), j)
      ensures |Reversed(d)| == |d|
      ensures LabelSuffix(d[|d| - j..], d)
      ensures Reversed(d)[..j] in items <==> d[|d| - j..] in table
      ensures Reversed(d)[..j] in items ==> TagOf(Some(items[Reversed(d)[..j]])) == Some(table[d[|d| - j..]])
    {
      hide Reversed;
      BoundaryIsSuffix(d, j);
      var p := d[|d| - j..];
      forall e | Reversed(e) == Reversed(p) ensures e == p {
        ReversedInjective(e, p);
      }
    }

    /** `best` is the longest probe of the first `i` bytes that hits, or 0. */
    ghost predicate LastHit(rev: string, i: nat, best: nat, lastMatch: Option<nat>) {
      && best <= i <= |rev|
      && (best == 0 ==> lastMatch.None?)
      && (best > 0 ==> Boundary(rev, best) && rev[..best] in items && lastMatch == Some(items[rev[..best]]))
      && forall j :: best < j <= i && Boundary(rev, j) ==> rev[..j] !in items
    }

    lemma LastHitIsLongest(table: map<string, string>, d: string, best: nat, lastMatch: Option<nat>)
      requires Represents(table) && LastHit(Reversed(d), |Reversed(d)|, best, lastMatch)
      ensures TagOf(lastMatch) == LongestSuffixTag(table, d)
    {
      hide Reversed, LongestSuffixTag, Represents, LastHit, LabelSuffix;
      forall q | q in table && q != "" && LabelSuffix(q, d) ensures |q| <= best {
        NoLongerHit(table, d, best, lastMatch, q);
      }
      LongestSuffixTagMeaning(table, d);
      BestIsStored(table, d, best, lastMatch);
      if best > 0 {
        LongestSuffixTagIs(table, d, d[|d| - best..]);
      }
    }

    lemma NoLongerHit(table: map<string, string>, d: string, best: nat, lastMatch: Option<nat>, q: string)
      requires Represents(table) && LastHit(Reversed(d), |Reversed(d)|, best, lastMatch)
      requires q in table && q != "" && LabelSuffix(q, d)
      ensures |q| <= best
    {
      hide Reversed, Represents;
      ReversedTwice(d);
      assert d[|d| - |q|..] == q;
      BoundaryIsSuffix(d, |q|);
      ProbeFinds(table, d, |q|);
    }

    lemma BestIsStored(table: map<string, string>, d: string, best: nat, lastMatch: Option<nat>)
      requires Represents(table) && LastHit(Reversed(d), |Reversed(d)|, best, lastMatch)
      ensures best == 0 ==> lastMatch.None?
      ensures best > 0 ==> && best <= |d| && d[|d| - best..] in table && LabelSuffix(d[|d| - best..], d)
                           && TagOf(lastMatch) == Some(table[d[|d| - best..]])
    {
      hide Reversed, Represents;
      ReversedTwice(d);
      if best > 0 {
        ProbeFinds(table, d, best);
      }
    }

    /** Scans the label boundaries of a reversed name, keeping the last hit. */
    method Scan(rev: string) returns (lastMatch: Option<nat>)
      ensures exists best :: LastHit(rev, |rev|, best, lastMatch)
    {
      lastMatch := None;
      ghost var best := 0;
      for i := 0 to |rev|
        invariant LastHit(rev, i, best, lastMatch)
      {
        if i == |rev| - 1 || rev[i + 1] == '.' {
          if rev[..i + 1] in items {
            lastMatch := Some(items[rev[..i + 1]]);
            best := i + 1;
          }
        }
      }
    }

    /** The slow path for names that do not fit the buffer; folds case. */
    method LookupBig(domain: string, ghost table: map<string, string>) returns (tag: Option<string>)
      requires Represents(table)
      ensures tag == LongestSuffixTag(table, FoldedName(domain))
    {
      var d := ToLower(TrimDots(domain));
      if d == "" {
        return None;
      }
      var lastMatch := Scan(Reversed(d));
      ghost var best :| LastHit(Reversed(d), |Reversed(d)|, best, lastMatch);
      LastHitIsLongest(table, d, best, lastMatch);
      tag := TagOf(lastMatch);
    }

    static method CopyInto(buf: array<char>, pos: nat, part: string)
      requires pos + |part| <= buf.Length
      modifies buf
      ensures buf[..pos + |part|] == old(buf[..pos]) + part
    {
      forall i | 0 <= i < |part| {
        buf[pos + i] := part[i];
      }
    }

    /** Reverses the labels of `d` into a fixed buffer, last label first. */
    method FillBuffer(d: string, buf: array<char>) returns (pos: nat)
      requires buf.Length == BUFFER_SIZE && 0 < |d| <= BUFFER_SIZE && d[|d| - 1] != '.'
      modifies buf
      ensures pos == |d| && buf[..pos] == Reversed(d)
    {
      hide *;
      var labels := Reverse(Split(d, '.'));
      ReversedIsJoin(d);
      ReversedTwice(d);
      FirstReversedLabel(d);
      JoinNothing(labels);
      pos := 0;
      for k := 0 to |labels|
        invariant pos <= |d|
        invariant buf[..pos] == Join(labels[..k], '.')
        invariant k > 0 ==> pos > 0
      {
        JoinStep(labels, k);
        JoinPrefixLength(labels, k + 1);
        if pos > 0 {
          CopyInto(buf, pos, ".");
          pos := pos + 1;
        }
        CopyInto(buf, pos, labels[k]);
        pos := pos + |labels[k]|;
      }
      assert labels[..|labels|] == labels;
    }

    method Lookup(domain: string, ghost table: map<string, string>) returns (tag: Option<string>)
      requires Represents(table)
      ensures tag == LongestSuffixTag(table, SearchedName(domain))
    {
      var d := TrimDots(domain);
      if d == "" {
        return None;
      }
      if |d| > BUFFER_SIZE {
        TrimDotsKeeps(d);
        tag := LookupBig(d, table);
        return;
      }
      var buf := new char[BUFFER_SIZE];
      var pos := FillBuffer(d, buf);
      var lastMatch := Scan(buf[..pos]);
      ghost var best :| LastHit(Reversed(d), |Reversed(d)|, best, lastMatch);
      LastHitIsLongest(table, d, best, lastMatch);
      tag := TagOf(lastMatch);
    }
  }

  lemma JoinNothing(labels: seq<string>)
    ensures Join(labels[..0], '.') == ""
  {
  }

  lemma ReversedIsJoin(d: string)
    ensures Reversed(d) == Join(Reverse(Split(d, '.')), '.')
  {
  }

  lemma JoinStep(labels: seq<string>, k: nat)
    requires k < |labels|
    ensures Join(labels[..k + 1], '.') ==
            (if k == 0 then "" else Join(labels[..k], '.') + ".") + labels[k]
  {
    if k > 0 {
      assert labels[..k + 1] == labels[..k] + [labels[k]];
      JoinConcat(labels[..k], [labels[k]], '.');
    }
  }

  lemma JoinPrefixLength(labels: seq<string>, k: nat)
    requires 0 < k <= |labels|
    ensures |Join(labels[..k], '.')| <= |Join(labels, '.')|
  {
    if k < |labels| {
      assert labels == labels[..k] + labels[k..];
      JoinConcat(labels[..k], labels[k..], '.');
    } else {
      assert labels[..k] == labels;
    }
  }

  /** A name that does not end with a dot ends with a label that is not empty. */
  lemma {:induction false} LastLabel(d: string)
    requires d != "" && d[|d| - 1] != '.'
    ensures var parts := Split(d, '.'); parts[|parts| - 1] != ""
    decreases |d|
  {
    hide IndexOf;
    var i := IndexOf(d, '.');
    if i < |d| {
      var rest := d[i + 1..];
      assert rest != "" && rest[|rest| - 1] == d[|d| - 1];
      LastLabel(rest);
    }
  }

  lemma FirstReversedLabel(d: string)
    requires d != "" && d[|d| - 1] != '.'
    ensures Reverse(Split(d, '.'))[0] != ""
  {
    hide Split;
    LastLabel(d);
  }

  /** What the slow path searches for. */
  function FoldedName(domain: string): string {
    ToLower(TrimDots(domain))
  }

  /** A lookup and the slow path return the same tag, whatever is stored, exactly for the names that are
      too long for the buffer or have no upper-case letters. */
  lemma PathsAgreeExactly(domain: string)
    ensures (forall table: map<string, string> ::
               LongestSuffixTag(table, SearchedName(domain)) == LongestSuffixTag(table, FoldedName(domain)))
       <==> |TrimDots(domain)| > BUFFER_SIZE || NoUpper(TrimDots(domain))
  {
    hide LongestSuffixTag, TrimDots;
    var d := TrimDots(domain);
    if |d| <= BUFFER_SIZE && !NoUpper(d) {
      var table: map<string, string> := map[d := "tag"];
      WholeIsLongest(table, d);
      OnlyItselfHits(table, d, ToLower(d));
      assert LongestSuffixTag(table, SearchedName(domain)) != LongestSuffixTag(table, FoldedName(domain));
    } else if NoUpper(d) {
      ToLowerKeeps(d);
    }
  }

  lemma WholeIsLongest<V>(table: map<string, V>, d: string)
    requires d != "" && d in table
    ensures LongestSuffixTag(table, d) == Some(table[d])
  {
  }

  /** A name of the same length hits only if it is the stored one. */
  lemma OnlyItselfHits(table: map<string, string>, d: string, e: string)
    requires table.Keys == {d} && |e| == |d| && e != d
    ensures LongestSuffixTag(table, e).None?
  {
    hide LongestSuffixTag;
    LongestSuffixTagMeaning(table, e);
    assert e[|e| - |d|..] == e;
  }

  /** Names without upper-case letters are searched as they are. */
  lemma SearchedAsIs(domain: string)
    requires NoUpper(TrimDots(domain))
    ensures SearchedName(domain) == FoldedName(domain) == TrimDots(domain)
  {
    ToLowerKeeps(TrimDots(domain));
  }
}
