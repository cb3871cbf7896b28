/** Query log templates: text with `{field}` placeholders, compiled once. */
module LogTemplate {
  import opened Wrappers
  import opened Text

  datatype Field =
    | Duration
    | Proto
    | Rcode
    | QName
    | QType
    | Port
    | Size
    | Action
    | Remote
    | Answers
    | Time

  datatype Segment = Literal(text: string) | Placeholder(field: Field)

  function FieldOf(key: string): Option<Field> {
    match key
    case "duration" => Some(Duration)
    case "proto" => Some(Proto)
    case "rcode" => Some(Rcode)
    case "name" => Some(QName)
    case "type" => Some(QType)
    case "port" => Some(Port)
    case "size" => Some(Size)
    case "action" => Some(Action)
    case "remote" => Some(Remote)
    case "answers" => Some(Answers)
    case "time" => Some(Time)
    case _ => None
  }

  function KeyOf(field: Field): string {
    match field
    case Duration => "duration"
    case Proto => "proto"
    case Rcode => "rcode"
    case QName => "name"
    case QType => "type"
    case Port => "port"
    case Size => "size"
    case Action => "action"
    case Remote => "remote"
    case Answers => "answers"
    case Time => "time"
  }

  lemma KeysRoundTrip(field: Field)
    ensures FieldOf(KeyOf(field)) == Some(field) && '}' !in KeyOf(field)
  {
  }

  lemma KeyIs(key: string)
    requires FieldOf(key).Some?
    ensures KeyOf(FieldOf(key).value) == key
  {
  }

  /** The values of one query. */
  type Values = Field -> string

  function RenderedSegment(segment: Segment, values: Values): string {
    match segment
    case Literal(text) => text
    case Placeholder(field) => values(field)
  }

  /** A log line: literals as they are, every placeholder replaced by its value. */
  function Rendered(segments: seq<Segment>, values: Values): string {
    if segments == [] then "" else
    Rendered(segments[..|segments| - 1], values) + RenderedSegment(segments[|segments| - 1], values)
  }

  /** What a template writes for a placeholder. */
  function Written(field: Field): string {
    "{" + KeyOf(field) + "}"
  }

  /** The template text of a compiled template. */
  function Printed(segments: seq<Segment>): string {
    Rendered(segments, Written)
  }

  function Pending(text: string): seq<Segment> {
    if text == "" then [] else [Literal(text)]
  }

  /** A template up to its first braces. */
  datatype Cut =
    | NoBrace
    | Unclosed(before: string, inner: string)
    | Braced(before: string, key: string, after: string)

  function CutOf(s: string): (cut: Cut)
    ensures cut.NoBrace? ==> '{' !in s
    ensures cut.Unclosed? ==> s == cut.before + "{" + cut.inner
    ensures cut.Braced? ==> s == cut.before + "{" + cut.key + "}" + cut.after
  {
    var start := IndexOf(s, '{');
    if start == |s| then NoneAt(s); NoBrace else
    var inner := s[start + 1..];
    var end := IndexOf(inner, '}');
    Parts(s, start);
    if end == |inner| then Unclosed(s[..start], inner) else
    Parts(inner, end);
    Join3(s[..start] + "{", inner[..end], "}", inner[end + 1..]);
    Braced(s[..start], inner[..end], inner[end + 1..])
  }

  lemma NoneAt(s: string)
    requires IndexOf(s, '{') == |s|
    ensures '{' !in s
  {
    assert s[..|s|] == s;
  }

  lemma Parts(s: string, i: nat)
    requires i < |s|
    ensures s == s[..i] + [s[i]] + s[i + 1..]
  {
  }

  lemma Join3(a: string, b: string, c: string, d: string)
    ensures a + (b + c + d) == a + b + c + d
  {
  }

  lemma CutIs(before: string, key: string, after: string)
    requires '{' !in before && '}' !in key
    ensures CutOf(before + "{" + key + "}" + after) == Braced(before, key, after)
  {
    hide IndexOf;
    var s := before + "{" + key + "}" + after;
    var inner := key + "}" + after;
    assert s == before + "{" + inner;
    assert s[..|before|] == before && s[|before| + 1..] == inner;
    IndexOfIs(s, '{', |before|);
    assert inner[..|key|] == key && inner[|key| + 1..] == after;
    IndexOfIs(inner, '}', |key|);
  }

  /** The segments for `rest` when `text` has been collected before it. */
  function Compiled(text: string, rest: string): (segments: seq<Segment>)
    decreases |rest|
  {
    match CutOf(rest)
    case NoBrace => Pending(text + rest)
    case Unclosed(before, inner) => Pending(text + before + "{" + inner)
    case Braced(before, key, after) =>
      match FieldOf(key)
      case Some(field) => Pending(text + before) + [Placeholder(field)] + Compiled("", after)
      case None => Compiled(text + before + ("{" + key + "}"), after)
  }

  lemma CompiledStep(text: string, rest: string)
    ensures var cut := CutOf(rest);
            && (cut.NoBrace? ==> Compiled(text, rest) == Pending(text + rest))
            && (cut.Unclosed? ==> Compiled(text, rest) == Pending(text + cut.before + "{" + cut.inner))
            && (cut.Braced? && FieldOf(cut.key).Some? ==>
                  Compiled(text, rest) ==
                  Pending(text + cut.before) + [Placeholder(FieldOf(cut.key).value)] + Compiled("", cut.after))
            && (cut.Braced? && FieldOf(cut.key).None? ==>
                  Compiled(text, rest) == Compiled(text + cut.before + ("{" + cut.key + "}"), cut.after))
  {
    hide FieldOf, IndexOf, Pending;
  }

  method CompileTemplate(template: string) returns (segments: seq<Segment>)
    ensures segments == Compiled("", template)
  {
    hide FieldOf, IndexOf, Compiled, Pending;
    segments := [];
    var rest, text := template, "";
    while true
      invariant segments + Compiled(text, rest) == Compiled("", template)
      decreases |rest|
    {
      ghost var cut := CutOf(rest);
      CompiledStep(text, rest);
      var start := IndexOf(rest, '{');
      if start == |rest| {
        text := text + rest;
        break;
      }
      text := text + rest[..start];
      rest := rest[start + 1..];
      var end := IndexOf(rest, '}');
      if end == |rest| {
        assert cut.Unclosed?;
        text := text + "{";
        text := text + rest;
        break;
      }
      assert cut == Braced(cut.before, rest[..end], rest[end + 1..]);
      var field := FieldOf(rest[..end]);
      if field.Some? {
        PendingFirst(segments, text, field.value, Compiled("", rest[end + 1..]));
        if text != "" {
          segments := segments + [Literal(text)];
          text := "";
        }
        segments := segments + [Placeholder(field.value)];
      } else {
        text := text + ("{" + rest[..end] + "}");
      }
      rest := rest[end + 1..];
    }
    PendingLast(segments, text);
    if text != "" {
      segments := segments + [Literal(text)];
    }
  }

  lemma PendingFirst(segments: seq<Segment>, text: string, field: Field, rest: seq<Segment>)
    ensures segments + (Pending(text) + [Placeholder(field)] + rest)
         == (if text != "" then segments + [Literal(text)] else segments) + [Placeholder(field)] + rest
  {
  }

  lemma PendingLast(segments: seq<Segment>, text: string)
    ensures segments + Pending(text) == if text != "" then segments + [Literal(text)] else segments
  {
  }

  method FormatInto(segments: seq<Segment>, values: Values) returns (out: string)
    ensures out == Rendered(segments, values)
  {
    out := "";
    for i := 0 to |segments|
      invariant out == Rendered(segments[..i], values)
    {
      assert segments[..i + 1][..i] == segments[..i];
      match segments[i] {
        case Literal(text) => out := out + text;
        case Placeholder(field) => out := out + values(field);
      }
    }
    assert segments[..|segments|] == segments;
  }

  // ---------------------------------------------------------------------------
  // Compiling loses nothing
  // ---------------------------------------------------------------------------

  lemma {:induction false} RenderedConcat(a: seq<Segment>, b: seq<Segment>, values: Values)
    ensures Rendered(a + b, values) == Rendered(a, values) + Rendered(b, values)
  {
    RenderedLast(b, values);
    RenderedLast(a + b, values);
    hide Rendered, RenderedSegment;
    if b == [] {
      assert a + b == a;
    } else {
      var n := |b| - 1;
      RenderedConcat(a, b[..n], values);
      assert (a + b)[..|a + b| - 1] == a + b[..n];
      Associate(Rendered(a, values), Rendered(b[..n], values), RenderedSegment(b[n], values));
    }
  }

  lemma RenderedLast(segments: seq<Segment>, values: Values)
    ensures segments == [] ==> Rendered(segments, values) == ""
    ensures segments != [] ==>
              Rendered(segments, values) ==
              Rendered(segments[..|segments| - 1], values) + RenderedSegment(segments[|segments| - 1], values)
  {
  }

  lemma PrintedPending(text: string)
    ensures Printed(Pending(text)) == text
  {
    if text != "" {
      assert [Literal(text)][..0] == [];
      assert Rendered([Literal(text)], Written) == "" + text;
    }
  }

  lemma PrintedOne(field: Field)
    ensures Printed([Placeholder(field)]) == Written(field)
  {
    assert [Placeholder(field)][..0] == [];
    assert Rendered([Placeholder(field)], Written) == "" + Written(field);
  }

  lemma PrintedConcat(a: seq<Segment>, b: seq<Segment>)
    ensures Printed(a + b) == Printed(a) + Printed(b)
  {
    RenderedConcat(a, b, Written);
  }

  lemma PrintedWithField(text: string, field: Field, rest: seq<Segment>)
    ensures Printed(Pending(text) + [Placeholder(field)] + rest) == text + Written(field) + Printed(rest)
  {
    hide Rendered, Pending, Written, Printed;
    PrintedPending(text);
    PrintedOne(field);
    PrintedConcat(Pending(text), [Placeholder(field)]);
    PrintedConcat(Pending(text) + [Placeholder(field)], rest);
  }

  lemma {:induction false} PrintedCompiled(text: string, rest: string)
    ensures Printed(Compiled(text, rest)) == text + rest
    decreases |rest|
  {
    hide FieldOf, KeyOf, Printed, Pending, CutOf;
    match CutOf(rest) {
      case NoBrace => PrintedPending(text + rest);
      case Unclosed(before, inner) =>
        PrintedPending(text + before + "{" + inner);
        assert text + rest == text + before + "{" + inner;
      case Braced(before, key, after) =>
        assert text + rest == (text + before) + ("{" + key + "}") + after;
        match FieldOf(key) {
          case Some(field) =>
            KeyIs(key);
            PrintedCompiled("", after);
            PrintedWithField(text + before, field, Compiled("", after));
            assert "" + after == after;
          case None =>
            PrintedCompiled(text + before + ("{" + key + "}"), after);
        }
    }
  }

  /** Printing a compiled template gives the template back, whatever it contains. */
  lemma CompileIsLossless(template: string)
    ensures Printed(Compiled("", template)) == template
  {
    PrintedCompiled("", template);
  }

  /** The line a template gives. */
  function Line(template: string, values: Values): string {
    Rendered(Compiled("", template), values)
  }

  lemma RenderedPending(text: string, values: Values)
    ensures Rendered(Pending(text), values) == text
  {
    if text != "" {
      assert [Literal(text)][..0] == [];
      assert Rendered([Literal(text)], values) == "" + text;
    }
  }

  lemma RenderedWithField(text: string, field: Field, rest: seq<Segment>, values: Values)
    ensures Rendered(Pending(text) + [Placeholder(field)] + rest, values) ==
            text + values(field) + Rendered(rest, values)
  {
    RenderedLast([], values);
    RenderedLast([Placeholder(field)], values);
    assert [Placeholder(field)][..0] == [];
    assert "" + values(field) == values(field);
    hide Rendered, Pending;
    RenderedPending(text, values);
    RenderedConcat(Pending(text), [Placeholder(field)], values);
    RenderedConcat(Pending(text) + [Placeholder(field)], rest, values);
  }

  /** What waits as literal text comes out first. */
  lemma {:induction false} PendingComesFirst(text: string, rest: string, values: Values)
    ensures Rendered(Compiled(text, rest), values) == text + Line(rest, values)
    decreases |rest|
  {
    hide FieldOf, KeyOf, Rendered, Pending, CutOf, Compiled;
    CompiledStep(text, rest);
    CompiledStep("", rest);
    match CutOf(rest) {
      case NoBrace =>
        RenderedPending(text + rest, values);
        RenderedPending("" + rest, values);
      case Unclosed(before, inner) =>
        RenderedPending(text + before + "{" + inner, values);
        RenderedPending("" + before + "{" + inner, values);
        assert text + ("" + before + "{" + inner) == text + before + "{" + inner;
      case Braced(before, key, after) =>
        match FieldOf(key) {
          case Some(field) =>
            RenderedWithField(text + before, field, Compiled("", after), values);
            RenderedWithField("" + before, field, Compiled("", after), values);
            assert text + ("" + before + values(field) + Line(after, values))
                == text + before + values(field) + Line(after, values);
          case None =>
            PendingComesFirst(text + before + ("{" + key + "}"), after, values);
            PendingComesFirst("" + before + ("{" + key + "}"), after, values);
            assert text + ("" + before + ("{" + key + "}") + Line(after, values))
                == text + before + ("{" + key + "}") + Line(after, values);
        }
    }
  }

  /** The first pair of braces gives the value of the field it names, or stays when it names none; the text in
      front of it stays, and what comes behind it is treated alike. */
  lemma BracesAreFilledIn(before: string, key: string, after: string, values: Values)
    requires '{' !in before && '}' !in key
    ensures Line(before + "{" + key + "}" + after, values) ==
            before + (if FieldOf(key).Some? then values(FieldOf(key).value) else "{" + key + "}") + Line(after, values)
  {
    hide FieldOf, KeyOf, Rendered, Pending, CutOf, Compiled;
    var s := before + "{" + key + "}" + after;
    CutIs(before, key, after);
    CompiledStep("", s);
    assert "" + before == before;
    match FieldOf(key) {
      case Some(field) => RenderedWithField("" + before, field, Compiled("", after), values);
      case None => PendingComesFirst("" + before + ("{" + key + "}"), after, values);
    }
  }

  /** Text without a closed pair of braces stays. */
  lemma OtherTextStays(text: string, values: Values)
    requires !CutOf(text).Braced?
    ensures Line(text, values) == text
  {
    hide FieldOf, KeyOf, Rendered, Pending, Compiled;
    CompiledStep("", text);
    assert "" + text == text;
    RenderedPending(text, values);
    if CutOf(text).Unclosed? {
      var cut := CutOf(text);
      assert "" + cut.before + "{" + cut.inner == text;
    }
  }

  /** No literal is empty and no two literals are neighbours. */
  ghost predicate Normal(segments: seq<Segment>) {
    && (forall i :: 0 <= i < |segments| ==> segments[i] != Literal(""))
    && (forall i :: 0 < i < |segments| ==> segments[i - 1].Placeholder? || segments[i].Placeholder?)
  }

  lemma {:induction false} CompiledIsNormal(text: string, rest: string)
    ensures Normal(Compiled(text, rest))
    decreases |rest|
  {
    hide FieldOf, CutOf;
    match CutOf(rest) {
      case Braced(before, key, after) =>
        match FieldOf(key) {
          case Some(field) => CompiledIsNormal("", after);
          case None => CompiledIsNormal(text + before + ("{" + key + "}"), after);
        }
      case _ =>
    }
  }

  // ---------------------------------------------------------------------------
  // Which templates are compiled back to what they were printed from
  // ---------------------------------------------------------------------------

  /** Read from the left, no pair of braces in `text` encloses a known key; unless `text` is the `last`
      segment, no brace is left open either. */
  predicate Inert(text: string, last: bool)
    decreases |text|
  {
    match CutOf(text)
    case NoBrace => true
    case Unclosed(_, _) => last
    case Braced(_, key, after) => FieldOf(key).None? && Inert(after, last)
  }

  predicate InertLiterals(segments: seq<Segment>) {
    forall i :: 0 <= i < |segments| && segments[i].Literal? ==> Inert(segments[i].text, i == |segments| - 1)
  }

  /** What follows does not change how a closed pair of braces, or text without any, is read. */
  lemma CutExtends(text: string, rest: string)
    ensures var cut := CutOf(text);
            cut.Braced? ==> CutOf(text + rest) == Braced(cut.before, cut.key, cut.after + rest)
  {
    hide CutOf;
    var cut := CutOf(text);
    if cut.Braced? {
      CutParts(text);
      CutIs(cut.before, cut.key, cut.after + rest);
      assert text + rest == cut.before + "{" + cut.key + "}" + (cut.after + rest);
    }
  }

  lemma CutParts(text: string)
    ensures var cut := CutOf(text);
            && (cut.Braced? ==> text == cut.before + "{" + cut.key + "}" + cut.after)
            && (cut.Braced? ==> '{' !in cut.before && '}' !in cut.key)
            && (cut.Unclosed? ==> text == cut.before + "{" + cut.inner && '{' !in cut.before && '}' !in cut.inner)
            && (cut.NoBrace? ==> '{' !in text)
  {
    if IndexOf(text, '{') < |text| {
      NoneAtEnd(text[IndexOf(text, '{') + 1..]);
    }
  }

  lemma NoneAtEnd(s: string)
    ensures IndexOf(s, '}') == |s| ==> '}' !in s
  {
    assert s[..|s|] == s;
  }

  /** Known keys have no braces. */
  lemma BraceIsNoKey(key: string)
    requires '{' in key
    ensures FieldOf(key).None?
  {
    if FieldOf(key).Some? {
      KeyIs(key);
      KeyHasNoBrace(FieldOf(key).value);
    }
  }

  lemma KeyHasNoBrace(field: Field)
    ensures '{' !in KeyOf(field)
  {
  }

  /** A placeholder behind inert text is recognised. */
  lemma {:induction false} InertThenField(acc: string, text: string, field: Field, rest: string)
    requires Inert(text, false)
    ensures Compiled(acc, text + Written(field) + rest) ==
        Pending(acc + text) + [Placeholder(field)] + Compiled("", rest)
    decreases |text|
  {
    hide FieldOf, KeyOf, CutOf, Pending, Compiled;
    var all := text + Written(field) + rest;
    CompiledStep(acc, all);
    CutParts(text);
    match CutOf(text) {
      case NoBrace =>
        KeysRoundTrip(field);
        CutIs(text, KeyOf(field), rest);
        assert all == text + "{" + KeyOf(field) + "}" + rest;
      case Braced(before, key, after) =>
        CutExtends(text, Written(field) + rest);
        assert all == text + (Written(field) + rest);
        assert after + (Written(field) + rest) == after + Written(field) + rest;
        var acc' := acc + before + ("{" + key + "}");
        InertThenField(acc', after, field, rest);
        assert acc' + after == acc + text;
      case _ =>
    }
  }

  /** Inert text at the end is one literal. */
  lemma {:induction false} InertAlone(acc: string, text: string)
    requires Inert(text, true)
    ensures Compiled(acc, text) == Pending(acc + text)
    decreases |text|
  {
    hide FieldOf, CutOf, Pending, Compiled;
    CompiledStep(acc, text);
    CutParts(text);
    match CutOf(text) {
      case NoBrace =>
      case Unclosed(before, inner) => assert acc + before + "{" + inner == acc + text;
      case Braced(before, key, after) =>
        var acc' := acc + before + ("{" + key + "}");
        InertAlone(acc', after);
        assert acc' + after == acc + text;
    }
  }

  /** The first segment carries the text collected before it. */
  lemma {:induction false} FirstIsLong(acc: string, rest: string)
    requires acc != ""
    ensures Compiled(acc, rest) != [] && Compiled(acc, rest)[0].Literal? && |Compiled(acc, rest)[0].text| >= |acc|
    decreases |rest|
  {
    hide FieldOf, CutOf, Compiled;
    CompiledStep(acc, rest);
    match CutOf(rest) {
      case Braced(before, key, after) =>
        if FieldOf(key).None? {
          FirstIsLong(acc + before + ("{" + key + "}"), after);
        }
      case _ =>
    }
  }

  lemma ShorterLiteralFirst(short: string, text: string)
    requires |short| < |text|
    ensures forall field, rest :: (Pending(short) + [Placeholder(field)] + rest)[0] != Literal(text)
  {
  }

  /** Text that is followed by a placeholder and comes out as the first literal is inert. */
  lemma {:induction false} LiteralIsInert(acc: string, text: string, field: Field, rest: string)
    requires acc + text != "" && Compiled(acc, text + Written(field) + rest) != []
    requires Compiled(acc, text + Written(field) + rest)[0] == Literal(acc + text)
    ensures Inert(text, false)
    decreases |text|
  {
    hide FieldOf, KeyOf, CutOf, Compiled, Pending;
    var all := text + Written(field) + rest;
    CompiledStep(acc, all);
    CutParts(text);
    match CutOf(text) {
      case NoBrace =>
      case Unclosed(before, inner) =>
        SwallowsField(acc, before, inner, field, rest);
      case Braced(before, key, after) =>
        CutExtends(text, Written(field) + rest);
        assert all == text + (Written(field) + rest);
        assert after + (Written(field) + rest) == after + Written(field) + rest;
        ShorterLiteralFirst(acc + before, acc + text);
        if FieldOf(key).None? {
          var acc' := acc + before + ("{" + key + "}");
          assert acc' + after == acc + text;
          LiteralIsInert(acc', after, field, rest);
        }
    }
  }

  /** An open brace before a placeholder makes an unknown key of it. */
  lemma SwallowsField(acc: string, before: string, inner: string, field: Field, rest: string)
    requires '{' !in before && '}' !in inner
    ensures var all := (before + "{" + inner) + Written(field) + rest;
            && Compiled(acc, all) != [] && Compiled(acc, all)[0].Literal?
            && |Compiled(acc, all)[0].text| > |acc + (before + "{" + inner)|
  {
    hide FieldOf, KeyOf, CutOf, Compiled;
    var key := inner + "{" + KeyOf(field);
    var all := (before + "{" + inner) + Written(field) + rest;
    KeysRoundTrip(field);
    CutIs(before, key, rest);
    assert all == before + "{" + key + "}" + rest;
    assert key[|inner|] == '{';
    BraceIsNoKey(key);
    CompiledStep(acc, all);
    FirstIsLong(acc + before + ("{" + key + "}"), rest);
  }

  /** Text that comes out as one literal at the end is inert. */
  lemma {:induction false} LastLiteralIsInert(acc: string, text: string)
    requires acc + text != "" && Compiled(acc, text) == [Literal(acc + text)]
    ensures Inert(text, true)
    decreases |text|
  {
    hide FieldOf, CutOf, Compiled, Pending;
    CompiledStep(acc, text);
    CutParts(text);
    match CutOf(text) {
      case Braced(before, key, after) =>
        ShorterLiteralFirst(acc + before, acc + text);
        if FieldOf(key).None? {
          var acc' := acc + before + ("{" + key + "}");
          assert acc' + after == acc + text;
          LastLiteralIsInert(acc', after);
        }
      case _ =>
    }
  }

  /** Compiling undoes printing exactly when no literal is empty or next to another, and none can be
      mistaken for a placeholder or swallow the one behind it. */
  lemma {:induction false} CompilePrintedExactly(segments: seq<Segment>)
    ensures Compiled("", Printed(segments)) == segments <==> Normal(segments) && InertLiterals(segments)
    decreases |segments|
  {
    hide FieldOf, KeyOf, Rendered, CutOf, Printed, Compiled, Inert;
    CompiledIsNormal("", Printed(segments));
    if Normal(segments) {
      if segments == [] {
        PrintedPending("");
        CompiledStep("", "");
        EmptyHasNoBrace();
      } else if segments[0].Placeholder? {
        FieldFirst(segments);
        CompilePrintedExactly(segments[1..]);
        InertTail(segments, 1);
      } else if |segments| == 1 {
        OneLiteral(segments[0].text);
        assert segments == [Literal(segments[0].text)];
      } else {
        LiteralFirst(segments);
        CompilePrintedExactly(segments[2..]);
        InertTail(segments, 2);
      }
    }
  }

  lemma EmptyHasNoBrace()
    ensures CutOf("").NoBrace?
  {
  }

  /** Behind a first placeholder, the rest decides. */
  lemma FieldFirst(segments: seq<Segment>)
    requires segments != [] && segments[0].Placeholder?
    ensures Compiled("", Printed(segments)) == segments <==>
            Compiled("", Printed(segments[1..])) == segments[1..]
  {
    hide FieldOf, KeyOf, Rendered, CutOf, Printed, Compiled;
    var rest := segments[1..];
    assert segments == Pending("") + [segments[0]] + rest;
    PrintedWithField("", segments[0].field, rest);
    EmptyIsInert();
    InertThenField("", "", segments[0].field, Printed(rest));
    assert Compiled("", Printed(segments)) == [segments[0]] + Compiled("", Printed(rest)) by {
      assert "" + "" == "";
      assert Pending("") == [];
    }
    SameTail([segments[0]], Compiled("", Printed(rest)), rest);
  }

  lemma EmptyIsInert()
    ensures Inert("", false)
  {
    EmptyHasNoBrace();
  }

  lemma SameTail<T>(a: seq<T>, b: seq<T>, c: seq<T>)
    ensures a + b == a + c <==> b == c
  {
    assert (a + b)[|a|..] == b && (a + c)[|a|..] == c;
  }

  lemma OneLiteral(text: string)
    requires text != ""
    ensures Compiled("", Printed([Literal(text)])) == [Literal(text)] <==> Inert(text, true)
  {
    hide FieldOf, Rendered, CutOf, Printed, Compiled, Inert;
    assert [Literal(text)] == Pending(text);
    PrintedPending(text);
    assert "" + text == text;
    if Inert(text, true) {
      InertAlone("", text);
    }
    if Compiled("", text) == [Literal(text)] {
      LastLiteralIsInert("", text);
    }
  }

  /** Behind a first literal and a placeholder, the literal and the rest decide. */
  lemma LiteralFirst(segments: seq<Segment>)
    requires |segments| > 1 && Normal(segments) && segments[0].Literal?
    ensures Compiled("", Printed(segments)) == segments <==>
            Inert(segments[0].text, false) && Compiled("", Printed(segments[2..])) == segments[2..]
  {
    hide FieldOf, KeyOf, Rendered, CutOf, Printed, Compiled, Inert, Written;
    var text, field, rest := segments[0].text, segments[1].field, segments[2..];
    assert segments == Pending(text) + [segments[1]] + rest;
    PrintedWithField(text, field, rest);
    assert "" + text == text;
    if Compiled("", Printed(segments)) == segments {
      LiteralIsInert("", text, field, Printed(rest));
    }
    if Inert(text, false) {
      InertThenField("", text, field, Printed(rest));
      SameTail(Pending(text) + [segments[1]], Compiled("", Printed(rest)), rest);
    }
  }

  /** Inert literals of the whole and of its tail. */
  lemma InertTail(segments: seq<Segment>, n: nat)
    requires 0 < n <= 2 && n <= |segments|
    requires if n == 1 then segments[0].Placeholder? else segments[0].Literal? && segments[1].Placeholder?
    ensures InertLiterals(segments) <==>
            (n == 2 ==> Inert(segments[0].text, false)) && InertLiterals(segments[n..])
  {
    hide Inert;
    var rest := segments[n..];
    forall i | 0 <= i < |rest| ensures rest[i] == segments[n + i] && (i == |rest| - 1 <==> n + i == |segments| - 1) {
    }
    if InertLiterals(rest) {
      forall i | n <= i < |segments| && segments[i].Literal? ensures Inert(segments[i].text, i == |segments| - 1) {
        assert rest[i - n] == segments[i];
      }
    }
  }
}
