/** Placeholder templates: `{N}` label captures before a literal domain suffix. */
module Templates {
  import opened Wrappers
  import opened Text
  import Decimal

  datatype TemplatePattern = TemplatePattern(suffix: string, placeholders: seq<nat>)

  datatype TemplateError =
    | NotANumber
    | ZeroPlaceholder
    | NoPlaceholder
    | NoSuffix
    | PlaceholderInSuffix
    | BadSuffix

  // ---------------------------------------------------------------------------
  // Domains
  // ---------------------------------------------------------------------------

  predicate IsLabelChar(c: char) {
    'a' <= c <= 'z' || 'A' <= c <= 'Z' || '0' <= c <= '9' || c == '-' || c == '_'
  }

  predicate ValidLabel(part: string) {
    part != "" && part[0] != '-' && forall i :: 0 <= i < |part| ==> IsLabelChar(part[i])
  }

  predicate ValidDomain(s: string) {
    && s != "" && s[0] != '.' && s[|s| - 1] != '.'
    && forall i :: 0 <= i < |Split(s, '.')| ==> ValidLabel(Split(s, '.')[i])
  }

  lemma {:induction false} ValidLabelsMakePlainText(parts: seq<string>)
    requires forall i :: 0 <= i < |parts| ==> ValidLabel(parts[i])
    ensures forall c :: c in Join(parts, '.') ==> IsLabelChar(c) || c == '.'
  {
    if |parts| > 1 {
      ValidLabelsMakePlainText(parts[1..]);
    }
  }

  lemma ValidDomainIsPlainText(s: string)
    requires ValidDomain(s)
    ensures forall c :: c in s ==> IsLabelChar(c) || c == '.'
  {
    ValidLabelsMakePlainText(Split(s, '.'));
    JoinSplit(s, '.');
  }

  predicate IsWhitespace(c: char) {
    || '\t' <= c <= '\r' || c == ' ' || c == '\U{85}' || c == '\U{A0}' || c == '\U{1680}'
    || '\U{2000}' <= c <= '\U{200A}' || c == '\U{2028}' || c == '\U{2029}'
    || c == '\U{202F}' || c == '\U{205F}' || c == '\U{3000}'
  }

  function Trim(s: string): string {
    if s != "" && IsWhitespace(s[0]) then Trim(s[1..])
    else if s != "" && IsWhitespace(s[|s| - 1]) then Trim(s[..|s| - 1])
    else s
  }

  // ---------------------------------------------------------------------------
  // Parsing and printing a template
  // ---------------------------------------------------------------------------

  const DIGITS := { 0x30, 0x31, 0x32, 0x33, 0x34, 0x35, 0x36, 0x37, 0x38, 0x39 }

  const CAPITALS := {
    0x41, 0x42, 0x43, 0x44, 0x45, 0x46, 0x47, 0x48, 0x49, 0x4A, 0x4B, 0x4C, 0x4D, 0x4E, 0x4F, 0x50, 0x51, 0x52,
    0x53, 0x54, 0x55, 0x56, 0x57, 0x58, 0x59, 0x5A
  }

  const SMALL_LETTERS := {
    0x61, 0x62, 0x63, 0x64, 0x65, 0x66, 0x67, 0x68, 0x69, 0x6A, 0x6B, 0x6C, 0x6D, 0x6E, 0x6F, 0x70, 0x71, 0x72,
    0x73, 0x74, 0x75, 0x76, 0x77, 0x78, 0x79, 0x7A
  }

  /** The code points that count as white space. */
  const WHITE_SPACE := {
    0x9, 0xA, 0xB, 0xC, 0xD, 0x20, 0x85, 0xA0, 0x1680, 0x2000, 0x2001, 0x2002, 0x2003, 0x2004, 0x2005, 0x2006,
    0x2007, 0x2008, 0x2009, 0x200A, 0x2028, 0x2029, 0x202F, 0x205F, 0x3000
  }

  /** Labels are made of letters, digits, hyphens and underscores. */
  lemma LabelCharsAre(c: char)
    ensures IsLabelChar(c) <==>
            c as int in DIGITS || c as int in CAPITALS || c as int in SMALL_LETTERS || c == '-' || c == '_'
  {
  }

  lemma WhitespaceIs(c: char)
    ensures IsWhitespace(c) <==> c as int in WHITE_SPACE
  {
  }

  predicate AllWhitespace(s: string) {
    forall i :: 0 <= i < |s| ==> IsWhitespace(s[i])
  }

  /** No label is empty or starts with a hyphen, and there is nothing in it but label characters. */
  predicate SpellsDomain(s: string) {
    && s != "" && s[0] != '.' && s[0] != '-' && s[|s| - 1] != '.'
    && (forall i :: 0 <= i < |s| ==> s[i] == '.' || IsLabelChar(s[i]))
    && (forall i :: 0 <= i < |s| - 1 && s[i] == '.' ==> s[i + 1] != '.' && s[i + 1] != '-')
  }

  predicate AllValid(labels: seq<string>) {
    forall i :: 0 <= i < |labels| ==> ValidLabel(labels[i])
  }

  /** Valid domains, character by character. */
  lemma ValidDomainExactly(s: string)
    ensures ValidDomain(s) <==> SpellsDomain(s)
  {
    hide ValidLabel, IsLabelChar, Split;
    LabelsExactly(s);
  }

  lemma {:induction false} LabelsExactly(s: string)
    ensures AllValid(Split(s, '.')) <==> SpellsDomain(s)
    decreases |s|
  {
    hide IsLabelChar, ValidLabel, SpellsDomain, AllValid;
    var i := IndexOf(s, '.');
    if i < |s| {
      var rest := s[i + 1..];
      LabelsExactly(rest);
      OneMoreLabel(s[..i], Split(rest, '.'));
      FirstLabel(s, i);
    } else {
      assert s[..i] == s;
      OneMoreLabel(s, []);
      OnlyLabel(s);
      assert [s] + [] == [s];
    }
  }

  lemma OneMoreLabel(first: string, more: seq<string>)
    ensures AllValid([first] + more) <==> ValidLabel(first) && AllValid(more)
    ensures AllValid([])
  {
    hide ValidLabel;
    var all := [first] + more;
    assert forall i :: 0 <= i < |more| ==> all[i + 1] == more[i];
    if ValidLabel(first) && AllValid(more) {
      forall i | 0 <= i < |all| ensures ValidLabel(all[i]) {
        assert i > 0 ==> all[i] == more[i - 1];
      }
    }
    if AllValid(all) {
      assert ValidLabel(all[0]);
      forall i | 0 <= i < |more| ensures ValidLabel(more[i]) {
        assert ValidLabel(all[i + 1]);
      }
    }
  }

  lemma OnlyLabel(s: string)
    requires '.' !in s
    ensures SpellsDomain(s) <==> ValidLabel(s)
  {
    hide IsLabelChar;
    assert forall i :: 0 <= i < |s| ==> s[i] in s;
  }

  lemma FirstLabel(s: string, i: nat)
    requires i < |s| && s[i] == '.' && '.' !in s[..i]
    ensures SpellsDomain(s) <==> ValidLabel(s[..i]) && SpellsDomain(s[i + 1..])
  {
    hide IsLabelChar;
    var rest := s[i + 1..];
    if SpellsDomain(s) {
      assert i > 0 && i < |s| - 1;
      assert s[i + 1] != '.' && s[i + 1] != '-';
      assert forall k :: 0 <= k < i ==> s[k] in s[..i];
      assert forall k :: 0 <= k < |rest| ==> rest[k] == s[i + 1 + k];
    }
    if ValidLabel(s[..i]) && SpellsDomain(rest) {
      assert forall k :: 0 <= k < i ==> IsLabelChar(s[..i][k]) && s[..i][k] == s[k];
      assert forall k :: i < k < |s| ==> s[k] == rest[k - i - 1];
    }
  }

  /** Trimming takes the white space off both ends, and nothing else. */
  lemma {:induction false} TrimExactly(front: string, s: string, back: string)
    requires AllWhitespace(front) && AllWhitespace(back)
    requires s != "" ==> !IsWhitespace(s[0]) && !IsWhitespace(s[|s| - 1])
    ensures Trim(front + s + back) == s
    decreases |front| + |back|
  {
    hide IsWhitespace;
    var all := front + s + back;
    if front != "" {
      assert all[1..] == front[1..] + s + back;
      TrimExactly(front[1..], s, back);
    } else if s == "" && back != "" {
      assert all[1..] == front + s + back[1..];
      TrimExactly(front, s, back[1..]);
    } else if back != "" {
      assert all[..|all| - 1] == front + s + back[..|back| - 1];
      TrimExactly(front, s, back[..|back| - 1]);
    } else {
      assert all == s;
    }
  }

  function Placeholder(n: nat): string {
    "{" + Decimal.Print(n) + "}"
  }

  /** The text between the braces of a placeholder segment. */
  function Braced(seg: string): Option<string> {
    if |seg| >= 2 && seg[0] == '{' && seg[|seg| - 1] == '}' then Some(seg[1..|seg| - 1]) else None
  }

  /** The leading placeholders of `segments` and the segments after them. */
  function LeadingPlaceholders(segments: seq<string>): Result<(seq<nat>, seq<string>), TemplateError>
  {
    if segments == [] then Ok(([], [])) else
    match Braced(Trim(segments[0]))
    case None => Ok(([], segments))
    case Some(inner) =>
      match Decimal.Parse(inner, Decimal.U32_MAX)
      case None => Err(NotANumber)
      case Some(n) =>
        if n == 0 then Err(ZeroPlaceholder) else
        match LeadingPlaceholders(segments[1..])
        case Err(e) => Err(e)
        case Ok((ps, rest)) => Ok(([n] + ps, rest))
  }

  function Finish(placeholders: seq<nat>, rest: seq<string>): Result<TemplatePattern, TemplateError> {
    if placeholders == [] then Err(NoPlaceholder)
    else if rest == [] then Err(NoSuffix)
    else
      var suffix := Join(rest, '.');
      if '{' in suffix || '}' in suffix then Err(PlaceholderInSuffix)
      else if !ValidDomain(suffix) then Err(BadSuffix)
      else Ok(TemplatePattern(suffix, placeholders))
  }

  function ParsedTemplate(s: string): Result<TemplatePattern, TemplateError> {
    match LeadingPlaceholders(Split(s, '.'))
    case Err(e) => Err(e)
    case Ok((placeholders, rest)) => Finish(placeholders, rest)
  }

  /** `r` with `before` put in front of its placeholders. */
  function Prepend(before: seq<nat>, r: Result<(seq<nat>, seq<string>), TemplateError>)
    : Result<(seq<nat>, seq<string>), TemplateError>
  {
    match r
    case Err(e) => Err(e)
    case Ok((ps, rest)) => Ok((before + ps, rest))
  }

  method ParseTemplate(s: string) returns (r: Result<TemplatePattern, TemplateError>)
    ensures r == ParsedTemplate(s)
  {
    hide Split, Trim, Braced, LeadingPlaceholders, Finish, Decimal.Parse;
    var segments := Split(s, '.');
    var placeholders: seq<nat> := [];
    var idx := 0;
    assert segments[0..] == segments;
    NothingInFront(LeadingPlaceholders(segments));
    while idx < |segments|
      invariant 0 <= idx <= |segments|
      invariant LeadingPlaceholders(segments) == Prepend(placeholders, LeadingPlaceholders(segments[idx..]))
    {
      assert segments[idx..][1..] == segments[idx + 1..];
      LeadingStep(segments[idx..], placeholders);
      var inner := Braced(Trim(segments[idx]));
      if inner.None? {
        break;
      }
      var n := Decimal.Parse(inner.value, Decimal.U32_MAX);
      if n.None? {
        return Err(NotANumber);
      }
      if n.value == 0 {
        return Err(ZeroPlaceholder);
      }
      placeholders := placeholders + [n.value];
      idx := idx + 1;
    }
    LeadingEnd(segments[idx..], placeholders);
    r := Finish(placeholders, segments[idx..]);
  }

  lemma NothingInFront(r: Result<(seq<nat>, seq<string>), TemplateError>)
    ensures Prepend([], r) == r
  {
    if r.Ok? {
      assert [] + r.value.0 == r.value.0;
    }
  }

  /** Reading the first segment, with `before` read already. */
  lemma LeadingStep(segments: seq<string>, before: seq<nat>)
    requires segments != []
    ensures var inner := Braced(Trim(segments[0]));
            inner.Some? ==>
              var n := Decimal.Parse(inner.value, Decimal.U32_MAX);
              Prepend(before, LeadingPlaceholders(segments)) ==
              if n.None? then Err(NotANumber) else if n.value == 0 then Err(ZeroPlaceholder)
              else Prepend(before + [n.value], LeadingPlaceholders(segments[1..]))
  {
    hide Trim, Braced, Decimal.Parse;
    var inner, next := Braced(Trim(segments[0])), LeadingPlaceholders(segments[1..]);
    if inner.Some? {
      var n := Decimal.Parse(inner.value, Decimal.U32_MAX);
      if n.Some? && next.Ok? {
        assert before + ([n.value] + next.value.0) == (before + [n.value]) + next.value.0;
      }
    }
  }

  lemma LeadingEnd(segments: seq<string>, before: seq<nat>)
    requires segments == [] || Braced(Trim(segments[0])).None?
    ensures Prepend(before, LeadingPlaceholders(segments)) == Ok((before, segments))
  {
    hide Trim, Braced;
    assert before + [] == before;
  }

  predicate WellFormed(p: TemplatePattern) {
    && p.placeholders != []
    && (forall i :: 0 <= i < |p.placeholders| ==> 1 <= p.placeholders[i] <= Decimal.U32_MAX)
    && ValidDomain(p.suffix)
  }

  function PrintSegments(placeholders: seq<nat>): (r: seq<string>)
    ensures |r| == |placeholders|
  {
    seq(|placeholders|, i requires 0 <= i < |placeholders| => Placeholder(placeholders[i]))
  }

  /** The configuration text of a pattern. */
  function PrintTemplate(p: TemplatePattern): string {
    Join(PrintSegments(p.placeholders) + [p.suffix], '.')
  }

  lemma BracedPlaceholder(n: nat)
    requires 1 <= n <= Decimal.U32_MAX
    ensures Trim(Placeholder(n)) == Placeholder(n)
    ensures Braced(Placeholder(n)) == Some(Decimal.Print(n))
    ensures Decimal.Parse(Decimal.Print(n), Decimal.U32_MAX) == Some(n)
    ensures '.' !in Placeholder(n)
  {
    Decimal.ParsePrint(n, Decimal.U32_MAX);
    var s := Placeholder(n);
    assert s[1..|s| - 1] == Decimal.Print(n);
  }

  lemma {:induction false} LeadingPlaceholdersPrinted(ps: seq<nat>, rest: seq<string>)
    requires forall i :: 0 <= i < |ps| ==> 1 <= ps[i] <= Decimal.U32_MAX
    requires rest != [] && ValidLabel(rest[0])
    ensures LeadingPlaceholders(PrintSegments(ps) + rest) == Ok((ps, rest))
  {
    hide Trim, Braced, Decimal.Parse, Decimal.Print, Placeholder, ValidLabel;
    var all := PrintSegments(ps) + rest;
    if ps == [] {
      assert all == rest;
      TrimValidLabel(rest[0]);
    } else {
      BracedPlaceholder(ps[0]);
      assert all[1..] == PrintSegments(ps[1..]) + rest;
      LeadingPlaceholdersPrinted(ps[1..], rest);
      assert [ps[0]] + ps[1..] == ps;
    }
  }

  lemma TrimValidLabel(part: string)
    requires ValidLabel(part)
    ensures Trim(part) == part && Braced(part).None?
  {
    assert IsLabelChar(part[0]) && IsLabelChar(part[|part| - 1]);
  }

  /** Parsing undoes printing. */
  lemma ParsePrintedTemplate(p: TemplatePattern)
    requires WellFormed(p)
    ensures ParsedTemplate(PrintTemplate(p)) == Ok(p)
  {
    hide Split, Join, LeadingPlaceholders, Placeholder, Trim, Braced, Decimal.Print, Decimal.Parse;
    var front, labels := PrintSegments(p.placeholders), Split(p.suffix, '.');
    JoinOne(p.suffix, '.');
    forall q | q in front ensures '.' !in q {
      var i :| 0 <= i < |front| && q == front[i];
      BracedPlaceholder(p.placeholders[i]);
    }
    SplitJoin(front, '.');
    JoinConcat(front, [p.suffix], '.');
    SplitConcat(Join(front, '.'), p.suffix, '.');
    assert Split(PrintTemplate(p), '.') == front + labels;
    LeadingPlaceholdersPrinted(p.placeholders, labels);
    JoinSplit(p.suffix, '.');
    ValidDomainIsPlainText(p.suffix);
  }

  /** Whatever parses is well formed. */
  lemma ParsedIsWellFormed(s: string)
    requires ParsedTemplate(s).Ok?
    ensures WellFormed(ParsedTemplate(s).value)
  {
    LeadingPlaceholdersInRange(Split(s, '.'));
  }

  lemma {:induction false} LeadingPlaceholdersInRange(segments: seq<string>)
    requires LeadingPlaceholders(segments).Ok?
    ensures forall i :: 0 <= i < |LeadingPlaceholders(segments).value.0| ==>
                          1 <= LeadingPlaceholders(segments).value.0[i] <= Decimal.U32_MAX
  {
    if segments != [] && Braced(Trim(segments[0])).Some? {
      LeadingPlaceholdersInRange(segments[1..]);
    }
  }

  /** The segment is a number in braces, with any white space around them. */
  predicate IsPlaceholder(segment: string, n: nat) {
    var t := Trim(segment);
    |t| >= 2 && t[0] == '{' && t[|t| - 1] == '}' && Decimal.Parse(t[1..|t| - 1], Decimal.U32_MAX) == Some(n)
  }

  predicate AreBraced(segments: seq<string>, placeholders: seq<nat>) {
    |placeholders| <= |segments| && forall i :: 0 <= i < |placeholders| ==> IsPlaceholder(segments[i], placeholders[i])
  }

  /** The segments are the pattern's placeholders, in order, and then its suffix. */
  predicate Writes(segments: seq<string>, p: TemplatePattern) {
    && |segments| > |p.placeholders| && AreBraced(segments, p.placeholders)
    && Join(segments[|p.placeholders|..], '.') == p.suffix
  }

  /** Exactly the writings of well-formed patterns parse, each as the pattern it writes. */
  lemma ParsesExactly(s: string, p: TemplatePattern)
    ensures ParsedTemplate(s) == Ok(p) <==> WellFormed(p) && Writes(Split(s, '.'), p)
  {
    hide Split, Join, LeadingPlaceholders, Trim, Braced, IsPlaceholder, ValidDomain;
    var segments := Split(s, '.');
    if ParsedTemplate(s) == Ok(p) {
      ParsedIsWellFormed(s);
      LeadingParts(segments);
    }
    if WellFormed(p) && Writes(segments, p) {
      var rest := segments[|p.placeholders|..];
      SplitPartsHaveNoSeparator(s, '.');
      SplitJoin(rest, '.');
      ValidStart(rest);
      LeadingRead(segments, p.placeholders);
      LeadingEnds(rest);
      assert p.placeholders + [] == p.placeholders;
      ValidDomainIsPlainText(p.suffix);
    }
  }

  lemma ValidStart(rest: seq<string>)
    requires rest != [] && ValidDomain(Join(rest, '.')) && Split(Join(rest, '.'), '.') == rest
    ensures ValidLabel(rest[0])
  {
  }

  lemma LeadingEnds(rest: seq<string>)
    requires rest != [] && ValidLabel(rest[0])
    ensures LeadingPlaceholders(rest) == Ok(([], rest))
  {
    hide Trim, ValidLabel;
    TrimValidLabel(rest[0]);
  }

  lemma {:induction false} LeadingParts(segments: seq<string>)
    requires LeadingPlaceholders(segments).Ok?
    ensures var (ps, rest) := LeadingPlaceholders(segments).value;
            AreBraced(segments, ps) && rest == segments[|ps|..]
  {
    hide Trim;
    if segments != [] && Braced(Trim(segments[0])).Some? {
      LeadingParts(segments[1..]);
      var ps := LeadingPlaceholders(segments).value.0;
      forall i | 0 <= i < |ps| ensures IsPlaceholder(segments[i], ps[i]) {
        if i > 0 {
          assert segments[i] == segments[1..][i - 1] && ps[i] == ps[1..][i - 1];
        }
      }
    }
  }

  lemma {:induction false} LeadingRead(segments: seq<string>, ps: seq<nat>)
    requires AreBraced(segments, ps) && forall i :: 0 <= i < |ps| ==> ps[i] > 0
    ensures LeadingPlaceholders(segments) == Prepend(ps, LeadingPlaceholders(segments[|ps|..]))
  {
    hide Trim, LeadingPlaceholders, Prepend;
    NothingInFront(LeadingPlaceholders(segments));
    if ps == [] {
      assert segments[0..] == segments;
    } else {
      assert IsPlaceholder(segments[0], ps[0]);
      forall i | 0 <= i < |ps[1..]| ensures IsPlaceholder(segments[1..][i], ps[1..][i]) {
        assert IsPlaceholder(segments[i + 1], ps[i + 1]);
      }
      LeadingStep(segments, []);
      LeadingRead(segments[1..], ps[1..]);
      assert segments[1..][|ps[1..]|..] == segments[|ps|..];
      PrependTwice([ps[0]], ps[1..], LeadingPlaceholders(segments[|ps|..]));
      assert [] + [ps[0]] == [ps[0]] && [ps[0]] + ps[1..] == ps;
    }
  }

  lemma PrependTwice(a: seq<nat>, b: seq<nat>, r: Result<(seq<nat>, seq<string>), TemplateError>)
    ensures Prepend(a, Prepend(b, r)) == Prepend(a + b, r)
  {
    if r.Ok? {
      assert a + (b + r.value.0) == a + b + r.value.0;
    }
  }

  /** Behind its leading placeholders `ps`, why a text is rejected: it ends there; the next segment is in braces
      but holds no number, or zero; there was no placeholder; or the rest is no domain, for a brace or otherwise. */
  lemma RejectedFor(s: string, ps: seq<nat>)
    requires AreBraced(Split(s, '.'), ps) && forall i :: 0 <= i < |ps| ==> ps[i] > 0
    ensures var rest := Split(s, '.')[|ps|..];
            if rest == [] then ParsedTemplate(s) == Err(NoSuffix)
            else
              && (Bracketed(rest[0]) && (forall n :: !IsPlaceholder(rest[0], n)) ==>
                    ParsedTemplate(s) == Err(NotANumber))
              && (IsPlaceholder(rest[0], 0) ==> ParsedTemplate(s) == Err(ZeroPlaceholder))
              && (!Bracketed(rest[0]) && ps == [] ==> ParsedTemplate(s) == Err(NoPlaceholder))
              && (!Bracketed(rest[0]) && ps != [] ==>
                    if HasBrace(Join(rest, '.')) then ParsedTemplate(s) == Err(PlaceholderInSuffix)
                    else !ValidDomain(Join(rest, '.')) ==> ParsedTemplate(s) == Err(BadSuffix))
  {
    hide Split, Join, ValidDomain, Trim;
    var rest := Split(s, '.')[|ps|..];
    LeadingRead(Split(s, '.'), ps);
    if rest != [] && Braced(Trim(rest[0])).Some? {
      var parsed := Decimal.Parse(Braced(Trim(rest[0])).value, Decimal.U32_MAX);
      assert parsed.Some? ==> IsPlaceholder(rest[0], parsed.value);
    }
  }

  predicate HasBrace(s: string) {
    '{' in s || '}' in s
  }

  /** In braces, with any white space around them. */
  predicate Bracketed(segment: string) {
    var t := Trim(segment);
    |t| >= 2 && t[0] == '{' && t[|t| - 1] == '}'
  }

  // ---------------------------------------------------------------------------
  // Matching a name
  // ---------------------------------------------------------------------------

  /** The text before "." + `suffix` in `domain`. */
  function BeforeSuffix(domain: string, suffix: string): Option<string> {
    if EndsWith(domain, suffix) then
      var front := domain[..|domain| - |suffix|];
      if front != "" && front[|front| - 1] == '.' then Some(front[..|front| - 1]) else None
    else None
  }

  /** Label number `n` counted back from the end, when there is one and it is not empty. */
  function LabelBack(labels: seq<string>, n: nat): Option<string> {
    if 1 <= n <= |labels| && labels[|labels| - n] != "" then Some(labels[|labels| - n]) else None
  }

  function CapturesOf(labels: seq<string>, placeholders: seq<nat>): Option<seq<string>> {
    if placeholders == [] then Some([]) else
    var head := LabelBack(labels, placeholders[0]);
    var tail := CapturesOf(labels, placeholders[1..]);
    if head.Some? && tail.Some? then Some([head.value] + tail.value) else None
  }

  function Captures(t: TemplatePattern, domain: string): Option<seq<string>> {
    var rest := BeforeSuffix(TrimEnd(domain, '.'), TrimEnd(t.suffix, '.'));
    if rest.None? || rest.value == "" then None
    else CapturesOf(Split(rest.value, '.'), t.placeholders)
  }

  method TemplateMatch(t: TemplatePattern, domain: string) returns (r: Option<seq<string>>)
    ensures r == Captures(t, domain)
  {
    var rest := BeforeSuffix(TrimEnd(domain, '.'), TrimEnd(t.suffix, '.'));
    if rest.None? || rest.value == "" {
      return None;
    }
    var labels := Split(rest.value, '.');
    SplitPartsHaveNoSeparator(rest.value, '.');
    hide Split, BeforeSuffix, TrimEnd, CapturesOf;
    var caps: seq<string> := [];
    assert t.placeholders[0..] == t.placeholders;
    NothingBefore(CapturesOf(labels, t.placeholders));
    for k := 0 to |t.placeholders|
      invariant CapturesOf(labels, t.placeholders) == Behind(caps, CapturesOf(labels, t.placeholders[k..]))
    {
      CapturesStep(labels, t.placeholders[k..], caps);
      assert t.placeholders[k..][1..] == t.placeholders[k + 1..];
      var n := t.placeholders[k];
      if n > |labels| {
        return None;
      }
      var idx := |labels| - n;
      if idx >= |labels| {
        return None;
      }
      var part := labels[idx];
      if part == "" || '.' in part {
        return None;
      }
      caps := caps + [part];
    }
    NoMoreCaptures(labels, caps);
    r := Some(caps);
  }

  /** Captures made so far, then those still to come. */
  function Behind(caps: seq<string>, later: Option<seq<string>>): Option<seq<string>> {
    if later.Some? then Some(caps + later.value) else None
  }

  lemma NothingBefore(later: Option<seq<string>>)
    ensures Behind([], later) == later
  {
    if later.Some? {
      assert [] + later.value == later.value;
    }
  }

  lemma NoMoreCaptures(labels: seq<string>, caps: seq<string>)
    ensures Behind(caps, CapturesOf(labels, [])) == Some(caps)
  {
    assert caps + [] == caps;
  }

  lemma CapturesStep(labels: seq<string>, placeholders: seq<nat>, caps: seq<string>)
    requires placeholders != []
    ensures var head := LabelBack(labels, placeholders[0]);
            Behind(caps, CapturesOf(labels, placeholders)) ==
            if head.None? then None else Behind(caps + [head.value], CapturesOf(labels, placeholders[1..]))
  {
    var head, tail := LabelBack(labels, placeholders[0]), CapturesOf(labels, placeholders[1..]);
    if head.Some? && tail.Some? {
      assert caps + ([head.value] + tail.value) == (caps + [head.value]) + tail.value;
    }
  }

  /** `labels` are the labels in front of the pattern's suffix in `domain`. */
  ghost predicate LabelsBefore(t: TemplatePattern, domain: string, labels: seq<string>) {
    && labels != [] && labels != [""]
    && (forall l :: l in labels ==> '.' !in l)
    && TrimEnd(domain, '.') == Join(labels, '.') + "." + TrimEnd(t.suffix, '.')
  }

  ghost predicate CapturesAre(t: TemplatePattern, labels: seq<string>, caps: seq<string>) {
    && |caps| == |t.placeholders|
    && forall j :: 0 <= j < |caps| ==>
                     && 1 <= t.placeholders[j] <= |labels|
                     && caps[j] == labels[|labels| - t.placeholders[j]] != ""
  }

  /** The first placeholder and the others, separately. */
  lemma CapturesAreStep(t: TemplatePattern, labels: seq<string>, caps: seq<string>)
    requires t.placeholders != [] && caps != []
    ensures CapturesAre(t, labels, caps) <==>
            && LabelBack(labels, t.placeholders[0]) == Some(caps[0])
            && CapturesAre(t.(placeholders := t.placeholders[1..]), labels, caps[1..])
  {
    var t', caps' := t.(placeholders := t.placeholders[1..]), caps[1..];
    assert forall j :: 0 <= j < |t'.placeholders| ==> t'.placeholders[j] == t.placeholders[j + 1];
    assert forall j :: 0 <= j < |caps'| ==> caps'[j] == caps[j + 1];
    if CapturesAre(t', labels, caps') && LabelBack(labels, t.placeholders[0]) == Some(caps[0]) {
      forall j | 0 <= j < |caps|
        ensures 1 <= t.placeholders[j] <= |labels| && caps[j] == labels[|labels| - t.placeholders[j]] != ""
      {
        if j > 0 {
          assert t'.placeholders[j - 1] == t.placeholders[j] && caps'[j - 1] == caps[j];
        }
      }
    }
  }

  lemma {:induction false} CapturesOfMeaning(labels: seq<string>, t: TemplatePattern, caps: seq<string>)
    ensures CapturesOf(labels, t.placeholders) == Some(caps) <==> CapturesAre(t, labels, caps)
    decreases |t.placeholders|
  {
    hide LabelBack;
    if t.placeholders != [] && caps != [] {
      CapturesAreStep(t, labels, caps);
      CapturesOfMeaning(labels, t.(placeholders := t.placeholders[1..]), caps[1..]);
      hide CapturesAre;
      assert caps == [caps[0]] + caps[1..];
    }
  }

  /** A template matches exactly the names made of labels, a dot and the suffix, with every
      requested label present and not empty; the captures are those labels. */
  lemma CapturesMeaning(t: TemplatePattern, domain: string, caps: seq<string>)
    ensures Captures(t, domain) == Some(caps) <==>
            exists labels :: LabelsBefore(t, domain, labels) && CapturesAre(t, labels, caps)
  {
    var d, suffix := TrimEnd(domain, '.'), TrimEnd(t.suffix, '.');
    var rest := BeforeSuffix(d, suffix);
    if Captures(t, domain) == Some(caps) {
      var labels := Split(rest.value, '.');
      JoinSplit(rest.value, '.');
      SplitPartsHaveNoSeparator(rest.value, '.');
      assert d == rest.value + "." + suffix;
      CapturesOfMeaning(labels, t, caps);
      assert LabelsBefore(t, domain, labels);
    }
    forall labels | LabelsBefore(t, domain, labels) && CapturesAre(t, labels, caps)
      ensures Captures(t, domain) == Some(caps)
    {
      LabelsBeforeSplit(t, domain, labels);
      CapturesOfMeaning(labels, t, caps);
    }
  }

  lemma LabelsBeforeSplit(t: TemplatePattern, domain: string, labels: seq<string>)
    requires LabelsBefore(t, domain, labels)
    ensures BeforeSuffix(TrimEnd(domain, '.'), TrimEnd(t.suffix, '.')) == Some(Join(labels, '.'))
    ensures Split(Join(labels, '.'), '.') == labels
    ensures Join(labels, '.') != ""
  {
    var d, suffix, front := TrimEnd(domain, '.'), TrimEnd(t.suffix, '.'), Join(labels, '.');
    assert d[|d| - |suffix|..] == suffix;
    assert d[..|d| - |suffix|] == front + ".";
    SplitJoin(labels, '.');
  }

  // ---------------------------------------------------------------------------
  // Substituting captures
  // ---------------------------------------------------------------------------

  /** The capture a placeholder stands for. */
  function Expansion(inner: string, captures: seq<string>): Option<string> {
    match Decimal.Parse(inner, Decimal.U32_MAX)
    case Some(n) => if 1 <= n <= |captures| then Some(captures[n - 1]) else None
    case None => None
  }

  function Substituted(s: string, captures: seq<string>): string
    decreases |s|
  {
    var start := IndexOf(s, '{');
    if start == |s| then s else
    var after := s[start + 1..];
    var end := IndexOf(after, '}');
    if end == |after| then s else
    var inner := after[..end];
    var value := Expansion(inner, captures);
    s[..start] + (if value.Some? then value.value else "{" + inner + "}") + Substituted(after[end + 1..], captures)
  }

  lemma SubstitutedAt(pre: string, inner: string, rest: string, captures: seq<string>)
    requires '{' !in pre && '}' !in inner
    ensures Substituted(pre + "{" + inner + "}" + rest, captures) ==
            pre + (var value := Expansion(inner, captures); if value.Some? then value.value else "{" + inner + "}")
            + Substituted(rest, captures)
  {
    hide Expansion;
    var s := pre + "{" + inner + "}" + rest;
    assert s[..|pre|] == pre;
    IndexOfIs(s, '{', |pre|);
    var after := s[|pre| + 1..];
    assert after == inner + "}" + rest;
    assert after[..|inner|] == inner;
    IndexOfIs(after, '}', |inner|);
    assert after[|inner| + 1..] == rest;
  }

  /** Captured text is copied once and never looked at again. */
  lemma SubstituteStep(pre: string, n: nat, rest: string, captures: seq<string>)
    requires '{' !in pre && 1 <= n <= |captures| && n <= Decimal.U32_MAX
    ensures Substituted(pre + Placeholder(n) + rest, captures) == pre + captures[n - 1] + Substituted(rest, captures)
  {
    hide Substituted, Decimal.Print, Decimal.Parse;
    var digits := Decimal.Print(n);
    assert pre + Placeholder(n) + rest == pre + "{" + digits + "}" + rest;
    SubstitutedAt(pre, digits, rest, captures);
    Decimal.ParsePrint(n, Decimal.U32_MAX);
  }

  lemma SubstituteUnclosed(s: string, start: nat, captures: seq<string>)
    requires start < |s| && IndexOf(s, '{') == start && '}' !in s[start + 1..]
    ensures Substituted(s, captures) == s
  {
    IndexOfIs(s[start + 1..], '}', |s| - start - 1);
  }

  lemma SubstituteNothing(s: string, captures: seq<string>)
    requires '{' !in s
    ensures Substituted(s, captures) == s
  {
    IndexOfIs(s, '{', |s|);
  }

  /** What the braces at the front of `rest`, behind its first `start` characters, become. */
  function PieceAt(inner: string, captures: seq<string>): string {
    var value := Expansion(inner, captures);
    if value.Some? then value.value else "{" + inner + "}"
  }

  /** One pair of braces of `rest`, from `start` to `end` characters behind it. */
  lemma SubstituteOne(rest: string, start: nat, end: nat, captures: seq<string>)
    requires start == IndexOf(rest, '{') < |rest|
    requires end == IndexOf(rest[start + 1..], '}') < |rest| - start - 1
    ensures var after := rest[start + 1..];
            Substituted(rest, captures) ==
            rest[..start] + PieceAt(after[..end], captures) + Substituted(after[end + 1..], captures)
  {
    hide Substituted, Expansion, IndexOf;
    var after := rest[start + 1..];
    assert rest == rest[..start] + "{" + after[..end] + "}" + after[end + 1..];
    SubstitutedAt(rest[..start], after[..end], after[end + 1..], captures);
  }

  lemma SubstituteLast(rest: string, start: nat, captures: seq<string>)
    requires start == IndexOf(rest, '{') < |rest|
    requires IndexOf(rest[start + 1..], '}') == |rest| - start - 1
    ensures Substituted(rest, captures) == rest
  {
    hide Substituted;
    var after := rest[start + 1..];
    assert after[..|after|] == after;
    SubstituteUnclosed(rest, start, captures);
  }

  lemma SubstituteNone(rest: string, captures: seq<string>)
    requires IndexOf(rest, '{') == |rest|
    ensures Substituted(rest, captures) == rest
  {
    hide Substituted;
    assert rest[..|rest|] == rest;
    SubstituteNothing(rest, captures);
  }

  lemma Rejoin(out: string, s: string, i: nat)
    requires i <= |s|
    ensures out + s[..i] + s[i..] == out + s
  {
  }

  lemma Associate4(out: string, a: string, b: string, c: string)
    ensures out + (a + b + c) == out + a + b + c
  {
  }

  method SubstitutePlaceholders(s: string, captures: seq<string>) returns (out: string)
    ensures out == Substituted(s, captures)
  {
    hide Substituted, Decimal.Parse, IndexOf;
    out := "";
    var rest := s;
    assert out + Substituted(rest, captures) == Substituted(s, captures);
    while true
      invariant Substituted(s, captures) == out + Substituted(rest, captures)
      decreases |rest|
    {
      var start := IndexOf(rest, '{');
      if start == |rest| {
        SubstituteNone(rest, captures);
        break;
      }
      var after := rest[start + 1..];
      var end := IndexOf(after, '}');
      if end == |after| {
        SubstituteLast(rest, start, captures);
        Rejoin(out, rest, start);
        out := out + rest[..start];
        out := out + rest[start..];
        return;
      }
      SubstituteOne(rest, start, end, captures);
      var inner := after[..end];
      var n := Decimal.Parse(inner, Decimal.U32_MAX);
      var piece := if n.Some? && n.value >= 1 && n.value - 1 < |captures| then captures[n.value - 1]
                   else "{" + inner + "}";
      assert piece == PieceAt(inner, captures);
      Associate4(out, rest[..start], piece, Substituted(after[end + 1..], captures));
      out := out + rest[..start];
      out := out + piece;
      rest := after[end + 1..];
    }
    out := out + rest;
  }

  /** The target "{k}.{k-1}. … .{1}.suffix". */
  function CountDown(k: nat, suffix: string): string {
    if k == 0 then suffix else Placeholder(k) + "." + CountDown(k - 1, suffix)
  }

  /** The captures from the last one down to the first, then the suffix. */
  function Rebuilt(captures: seq<string>, suffix: string): string {
    if captures == [] then suffix else
    captures[|captures| - 1] + "." + Rebuilt(captures[..|captures| - 1], suffix)
  }

  lemma {:induction false} SubstituteCountDown(k: nat, suffix: string, captures: seq<string>, pre: string)
    requires k <= |captures| && k <= Decimal.U32_MAX && '{' !in suffix && '{' !in pre
    ensures Substituted(pre + CountDown(k, suffix), captures) == pre + Rebuilt(captures[..k], suffix)
  {
    hide Substituted, Placeholder;
    if k == 0 {
      SubstituteNothing(pre + suffix, captures);
    } else {
      var rest := "." + CountDown(k - 1, suffix);
      assert pre + CountDown(k, suffix) == pre + Placeholder(k) + rest;
      SubstituteStep(pre, k, rest, captures);
      SubstituteCountDown(k - 1, suffix, captures, ".");
      assert captures[..k][..k - 1] == captures[..k - 1];
    }
  }

  lemma {:induction false} RebuiltIsTail(labels: seq<string>, captures: seq<string>, suffix: string)
    requires |captures| <= |labels|
    requires forall j :: 0 <= j < |captures| ==> captures[j] == labels[|labels| - 1 - j]
    ensures Rebuilt(captures, suffix) == Join(labels[|labels| - |captures|..] + [suffix], '.')
  {
    var k := |captures|;
    if k == 0 {
      assert labels[|labels|..] + [suffix] == [suffix];
    } else {
      RebuiltIsTail(labels, captures[..k - 1], suffix);
      var tail := labels[|labels| - k..] + [suffix];
      assert tail[1..] == labels[|labels| - (k - 1)..] + [suffix];
    }
  }

  lemma JoinTail(parts: seq<string>, n: nat)
    requires n < |parts|
    ensures exists front :: Join(parts, '.') == front + Join(parts[n..], '.')
                            && (front == "" || front[|front| - 1] == '.')
  {
    hide Join;
    if n == 0 {
      assert parts[0..] == parts;
      assert Join(parts, '.') == "" + Join(parts[0..], '.');
    } else {
      JoinConcat(parts[..n], parts[n..], '.');
      assert parts[..n] + parts[n..] == parts;
      assert Join(parts, '.') == (Join(parts[..n], '.') + ".") + Join(parts[n..], '.');
    }
  }

  lemma SuffixIsTrimmed(suffix: string)
    requires ValidDomain(suffix)
    ensures TrimEnd(suffix, '.') == suffix
  {
    TrimEndKeeps(suffix, '.');
  }

  /** With placeholders 1..k, the captures are the last k labels, counted back. */
  lemma CapturesCountBack(t: TemplatePattern, labels: seq<string>, k: nat, captures: seq<string>)
    requires WellFormed(t) && t.placeholders == seq(k, i => i + 1) && CapturesAre(t, labels, captures)
    ensures 0 < k == |captures| && k <= |labels| && k <= Decimal.U32_MAX
    ensures forall j :: 0 <= j < k ==> captures[j] == labels[|labels| - 1 - j]
  {
    hide ValidDomain;
    assert t.placeholders[k - 1] == k;
    forall j | 0 <= j < |captures| ensures captures[j] == labels[|labels| - 1 - j] {
      assert t.placeholders[j] == j + 1;
    }
  }

  /** The last labels and the suffix are a label-suffix of all labels and the suffix. */
  lemma TailIsSuffix(labels: seq<string>, suffix: string, k: nat)
    requires 0 < k <= |labels|
    ensures LabelSuffix(Join(labels[|labels| - k..] + [suffix], '.'), Join(labels, '.') + "." + suffix)
  {
    hide Join, LabelSuffix;
    JoinOne(suffix, '.');
    JoinConcat(labels, [suffix], '.');
    var all := labels + [suffix];
    JoinTail(all, |labels| - k);
    var front :| Join(all, '.') == front + Join(all[|labels| - k..], '.')
                 && (front == "" || front[|front| - 1] == '.');
    assert all[|labels| - k..] == labels[|labels| - k..] + [suffix];
    LabelSuffixAfter(front, Join(labels[|labels| - k..] + [suffix], '.'));
  }

  /** With placeholders 1..k, rebuilding gives the last k labels before the suffix, then the suffix. */
  lemma RebuildGivesParent(t: TemplatePattern, domain: string, k: nat, captures: seq<string>)
    requires WellFormed(t) && t.placeholders == seq(k, i => i + 1)
    requires Captures(t, domain) == Some(captures)
    ensures LabelSuffix(Substituted(CountDown(k, t.suffix), captures), TrimEnd(domain, '.'))
  {
    hide Substituted, Captures, Rebuilt, CountDown, Join, TrimEnd, ValidDomain, LabelSuffix, CapturesAre;
    CapturesMeaning(t, domain, captures);
    var labels :| LabelsBefore(t, domain, labels) && CapturesAre(t, labels, captures);
    CapturesCountBack(t, labels, k, captures);
    ValidDomainIsPlainText(t.suffix);
    SuffixIsTrimmed(t.suffix);
    SubstituteCountDown(k, t.suffix, captures, "");
    assert captures[..k] == captures;
    assert "" + CountDown(k, t.suffix) == CountDown(k, t.suffix);
    RebuiltIsTail(labels, captures, t.suffix);
    TailIsSuffix(labels, t.suffix, k);
    assert Substituted(CountDown(k, t.suffix), captures) == Rebuilt(captures, t.suffix) by {
      assert "" + Rebuilt(captures, t.suffix) == Rebuilt(captures, t.suffix);
    }
  }

  // ---------------------------------------------------------------------------
  // Which label a placeholder number stands for
  // ---------------------------------------------------------------------------

  /** `{n}` in an action stands for label number n counted back from the suffix, on every name `t` matches. */
  ghost predicate NumberNamesLabel(t: TemplatePattern, n: nat)
    requires 1 <= n <= |t.placeholders|
  {
    forall domain, labels, captures ::
      Captures(t, domain) == Some(captures) && LabelsBefore(t, domain, labels) && n <= |captures|
      ==> LabelBack(labels, n) == Some(captures[n - 1])
  }

  function Largest(ns: seq<nat>): (m: nat)
    ensures forall i :: 0 <= i < |ns| ==> ns[i] <= m
  {
    if ns == [] then 0 else
    var rest := Largest(ns[1..]);
    assert forall i :: 1 <= i < |ns| ==> ns[i] == ns[1..][i - 1];
    if ns[0] > rest then ns[0] else rest
  }

  /** Labels "0", "1", …, all different. */
  function CountingLabels(m: nat): (r: seq<string>)
    ensures |r| == m
  {
    seq(m, (i: nat) => Decimal.Print(i))
  }

  lemma CountingLabelsDiffer(m: nat, i: nat, j: nat)
    requires i < m && j < m && CountingLabels(m)[i] == CountingLabels(m)[j]
    ensures i == j
  {
    Decimal.DigitsValuePrint(i);
    Decimal.DigitsValuePrint(j);
  }

  lemma CountingLabelsArePlain(m: nat)
    ensures forall l :: l in CountingLabels(m) ==> l != "" && '.' !in l
  {
    forall l | l in CountingLabels(m) ensures l != "" && '.' !in l {
      var i :| 0 <= i < m && l == CountingLabels(m)[i];
      assert l == Decimal.Print(i);
    }
  }

  lemma MatchCountingLabels(t: TemplatePattern, m: nat) returns (domain: string, captures: seq<string>)
    requires WellFormed(t) && Largest(t.placeholders) <= m
    ensures LabelsBefore(t, domain, CountingLabels(m))
    ensures CapturesAre(t, CountingLabels(m), captures)
    ensures Captures(t, domain) == Some(captures)
  {
    hide Captures, Decimal.Print, CountingLabels, LabelsBefore, CapturesAre, Largest, Join, WellFormed, TrimEnd;
    var labels := CountingLabels(m);
    CountingLabelsArePlain(m);
    LargestPlaceholder(t);
    domain := NameOf(t, labels);
    captures := AllCaptured(t, labels);
    CapturesMeaning(t, domain, captures);
  }

  lemma LargestPlaceholder(t: TemplatePattern)
    requires WellFormed(t)
    ensures Largest(t.placeholders) >= 1
  {
    assert t.placeholders[0] <= Largest(t.placeholders);
  }

  /** The name with these labels in front of the suffix. */
  lemma NameOf(t: TemplatePattern, labels: seq<string>) returns (domain: string)
    requires WellFormed(t) && labels != [] && forall l :: l in labels ==> l != "" && '.' !in l
    ensures LabelsBefore(t, domain, labels)
  {
    hide Join, TrimEnd;
    SuffixIsTrimmed(t.suffix);
    domain := Join(labels, '.') + "." + t.suffix;
    assert domain[|domain| - 1] == t.suffix[|t.suffix| - 1];
    TrimEndKeeps(domain, '.');
    assert labels[0] in labels;
  }

  lemma AllCaptured(t: TemplatePattern, labels: seq<string>) returns (captures: seq<string>)
    requires WellFormed(t) && Largest(t.placeholders) <= |labels| && forall l :: l in labels ==> l != ""
    ensures CapturesAre(t, labels, captures)
  {
    hide Largest;
    captures := seq(|t.placeholders|, j requires 0 <= j < |t.placeholders| => labels[|labels| - t.placeholders[j]]);
    forall j | 0 <= j < |captures|
      ensures 1 <= t.placeholders[j] <= |labels| && captures[j] == labels[|labels| - t.placeholders[j]] != ""
    {
      assert labels[|labels| - t.placeholders[j]] in labels;
    }
  }

  /** Captures are numbered by position in the pattern, so `{n}` names label n exactly when
      the n-th placeholder of the pattern is `{n}`. */
  lemma NumberingIsPositional(t: TemplatePattern, n: nat)
    requires WellFormed(t) && 1 <= n <= |t.placeholders|
    ensures NumberNamesLabel(t, n) <==> t.placeholders[n - 1] == n
  {
    hide Captures, LabelsBefore, CapturesAre, CountingLabels;
    if t.placeholders[n - 1] == n {
      forall domain, labels, captures
        | Captures(t, domain) == Some(captures) && LabelsBefore(t, domain, labels) && n <= |captures|
        ensures LabelBack(labels, n) == Some(captures[n - 1])
      {
        CaptureIsLabel(t, domain, labels, captures, n);
      }
    }
    if NumberNamesLabel(t, n) {
      var m := Largest(t.placeholders) + n;
      var domain, captures := MatchCountingLabels(t, m);
      var labels := CountingLabels(m);
      CaptureIsLabel(t, domain, labels, captures, n);
      assert LabelBack(labels, n) == Some(captures[n - 1]);
      CountingLabelsDiffer(m, m - n, m - t.placeholders[n - 1]);
    }
  }

  lemma CaptureIsLabel(t: TemplatePattern, domain: string, labels: seq<string>, captures: seq<string>, n: nat)
    requires Captures(t, domain) == Some(captures) && LabelsBefore(t, domain, labels)
    requires 1 <= n <= |t.placeholders|
    ensures |captures| == |t.placeholders|
    ensures LabelBack(labels, t.placeholders[n - 1]) == Some(captures[n - 1])
  {
    hide Captures, LabelsBefore, Join, Split, TrimEnd, BeforeSuffix;
    CapturesMeaning(t, domain, captures);
    var ls :| LabelsBefore(t, domain, ls) && CapturesAre(t, ls, captures);
    LabelsBeforeSplit(t, domain, labels);
    LabelsBeforeSplit(t, domain, ls);
    assert ls == labels;
  }
}
