/**
 Strings as the resolver handles them: splitting at a separator, joining, trimming.
 Every separator the resolver looks for is ASCII, so a `char` stands for one byte.
*/
module Text {

  /** Position of the first `c` in `s`, or `|s|` when there is none. */
  function IndexOf(s: string, c: char): (i: nat)
    ensures i <= |s|
    ensures c !in s[..i]
    ensures i < |s| ==> s[i] == c
  {
    if s == "" || s[0] == c then 0 else
      var j := IndexOf(s[1..], c);
      assert s[..j + 1] == [s[0]] + s[1..][..j];
      j + 1
  }

  lemma IndexOfIs(s: string, c: char, i: nat)
    requires i <= |s| && c !in s[..i] && (i < |s| ==> s[i] == c)
    ensures IndexOf(s, c) == i
  {
    if i > 0 {
      assert s[0] == s[..i][0];
      assert s[1..][..i - 1] == s[..i][1..];
      IndexOfIs(s[1..], c, i - 1);
    }
  }

  /** The pieces of `s` between separators; never empty. */
  function Split(s: string, sep: char): (parts: seq<string>)
    ensures parts != []
    decreases |s|
  {
    var i := IndexOf(s, sep);
    if i == |s| then [s] else [s[..i]] + Split(s[i + 1..], sep)
  }

  function Join(parts: seq<string>, sep: char): string
  {
    if parts == [] then ""
    else if |parts| == 1 then parts[0]
    else parts[0] + [sep] + Join(parts[1..], sep)
  }

  function Reverse<T>(s: seq<T>): (r: seq<T>)
    ensures |r| == |s|
    ensures forall i :: 0 <= i < |s| ==> r[i] == s[|s| - 1 - i]
  {
    if s == [] then [] else Reverse(s[1..]) + [s[0]]
  }

  lemma ReverseConcat<T>(a: seq<T>, b: seq<T>)
    ensures Reverse(a + b) == Reverse(b) + Reverse(a)
  {
  }

  lemma SplitWhole(s: string, sep: char)
    requires sep !in s
    ensures Split(s, sep) == [s]
  {
    IndexOfIs(s, sep, |s|);
  }

  lemma {:induction false} SplitConcat(a: string, b: string, sep: char)
    ensures Split(a + [sep] + b, sep) == Split(a, sep) + Split(b, sep)
    decreases |a|
  {
    var s := a + [sep] + b;
    var i := IndexOf(a, sep);
    assert s[..i] == a[..i];
    IndexOfIs(s, sep, i);
    if i < |a| {
      assert s[i + 1..] == a[i + 1..] + [sep] + b;
      SplitConcat(a[i + 1..], b, sep);
    } else {
      assert s[i + 1..] == b;
      assert s[..i] == a;
    }
  }

  lemma Associate(a: string, b: string, c: string)
    ensures a + (b + c) == (a + b) + c
  {
  }

  lemma JoinOne(s: string, sep: char)
    ensures Join([s], sep) == s
  {
  }

  lemma {:induction false} JoinConcat(p: seq<string>, q: seq<string>, sep: char)
    requires p != [] && q != []
    ensures Join(p + q, sep) == Join(p, sep) + [sep] + Join(q, sep)
  {
    if |p| == 1 {
      assert (p + q)[1..] == q;
    } else {
      assert (p + q)[1..] == p[1..] + q;
      JoinConcat(p[1..], q, sep);
    }
  }

  lemma {:induction false} JoinSplit(s: string, sep: char)
    ensures Join(Split(s, sep), sep) == s
    decreases |s|
  {
    hide Join;
    var i := IndexOf(s, sep);
    JoinOne(s[..i], sep);
    assert s[..|s|] == s;
    if i < |s| {
      JoinSplit(s[i + 1..], sep);
      JoinConcat([s[..i]], Split(s[i + 1..], sep), sep);
      assert s == s[..i] + [sep] + s[i + 1..];
    }
  }

  lemma {:induction false} SplitJoin(parts: seq<string>, sep: char)
    requires parts != [] && forall p :: p in parts ==> sep !in p
    ensures Split(Join(parts, sep), sep) == parts
  {
    SplitWhole(parts[0], sep);
    if |parts| > 1 {
      SplitConcat(parts[0], Join(parts[1..], sep), sep);
      SplitJoin(parts[1..], sep);
    }
  }

  lemma {:induction false} SplitPartsHaveNoSeparator(s: string, sep: char)
    ensures forall p :: p in Split(s, sep) ==> sep !in p
    decreases |s|
  {
    var i := IndexOf(s, sep);
    if i < |s| {
      SplitPartsHaveNoSeparator(s[i + 1..], sep);
    }
  }

  /** `s` without its leading run of `c`. */
  function TrimStart(s: string, c: char): (r: string)
    ensures r == "" || r[0] != c
    ensures |r| <= |s| && r == s[|s| - |r|..]
    ensures forall i :: 0 <= i < |s| - |r| ==> s[i] == c
  {
    if s != "" && s[0] == c then TrimStart(s[1..], c) else s
  }

  /** `s` without its trailing run of `c`. */
  function TrimEnd(s: string, c: char): (r: string)
    ensures r == "" || r[|r| - 1] != c
    ensures |r| <= |s| && r == s[..|r|]
    ensures forall i :: |r| <= i < |s| ==> s[i] == c
  {
    if s != "" && s[|s| - 1] == c then TrimEnd(s[..|s| - 1], c) else s
  }

  /** `s` without the dots around it. */
  function TrimDots(s: string): (r: string)
    ensures r == "" || (r[0] != '.' && r[|r| - 1] != '.')
    ensures |r| <= |s|
    ensures forall c :: c in r ==> c in s
  {
    TrimEnd(TrimStart(s, '.'), '.')
  }

  lemma TrimEndKeeps(s: string, c: char)
    requires s == "" || s[|s| - 1] != c
    ensures TrimEnd(s, c) == s
  {
  }

  lemma TrimEndIs(s: string, c: char, r: string)
    requires |r| <= |s| && r == s[..|r|] && (r == "" || r[|r| - 1] != c)
    requires forall i :: |r| <= i < |s| ==> s[i] == c
    ensures TrimEnd(s, c) == r
  {
    hide TrimEnd;
    var t := TrimEnd(s, c);
    assert !(|t| < |r|) && !(|r| < |t|);
  }

  lemma TrimDotsKeeps(s: string)
    requires s == "" || (s[0] != '.' && s[|s| - 1] != '.')
    ensures TrimDots(s) == s
  {
  }

  predicate StartsWith(s: string, p: string) {
    |p| <= |s| && s[..|p|] == p
  }

  predicate EndsWith(s: string, p: string) {
    |p| <= |s| && s[|s| - |p|..] == p
  }

  /** `p` is `d` or a parent domain of `d`. */
  predicate LabelSuffix(p: string, d: string) {
    EndsWith(d, p) && (|p| == |d| || d[|d| - |p| - 1] == '.')
  }

  lemma LabelSuffixParts(p: string, d: string)
    requires LabelSuffix(p, d) && |p| < |d|
    ensures d == d[..|d| - |p| - 1] + "." + p
  {
    var n := |d| - |p| - 1;
    assert d == d[..n] + [d[n]] + d[n + 1..];
  }

  lemma LabelSuffixAfter(front: string, p: string)
    requires front == "" || front[|front| - 1] == '.'
    ensures LabelSuffix(p, front + p)
  {
  }

  lemma LabelSuffixTransitive(p: string, q: string, d: string)
    requires LabelSuffix(p, q) && LabelSuffix(q, d)
    ensures LabelSuffix(p, d)
  {
    assert d[|d| - |p|..] == d[|d| - |q|..][|q| - |p|..];
  }

  lemma LabelSuffixesNest(p: string, q: string, d: string)
    requires LabelSuffix(p, d) && LabelSuffix(q, d) && |p| <= |q|
    ensures LabelSuffix(p, q)
  {
    assert d[|d| - |p|..] == d[|d| - |q|..][|q| - |p|..];
  }
}
