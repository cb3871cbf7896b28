/** What the cache keeps of a response, and the response it builds back. */
module CacheRecords {
  import opened Wrappers
  import opened Dns

  /** Conversions between wire data and the text kept in the cache. */
  datatype Codec = Codec(
    nameToText: Name -> string,
    nameFromText: string -> Option<Name>,
    octetsToText: Octets -> string,
    textToOctets: string -> Octets)
  {
    /** Text made from a name parses back to it, and text survives as octets. */
    ghost predicate RoundTrips() {
      && (forall n :: nameFromText(nameToText(n)) == Some(n))
      && (forall t :: octetsToText(textToOctets(t)) == t)
    }

    /** `octets` is text: decoding it loses nothing. */
    predicate IsText(octets: Octets) {
      textToOctets(octetsToText(octets)) == octets
    }
  }

  datatype CacheRecord =
    | CachedA(v4: nat)
    | CachedAaaa(v6: nat)
    | CachedCname(target: string)
    | CachedMx(preference: nat, exchange: string)
    | CachedTxt(strings: seq<string>)
    | CachedHttps(svcb: Octets)
    | NxDomainMark
    | NoDataMark

  /** TTL used for a response without answers. */
  const DEFAULT_TTL: nat := 300

  function Texts(c: Codec, strings: seq<Octets>): (r: seq<string>)
    ensures |r| == |strings|
  {
    seq(|strings|, i requires 0 <= i < |strings| => c.octetsToText(strings[i]))
  }

  function OctetStrings(c: Codec, texts: seq<string>): (r: seq<Octets>)
    ensures |r| == |texts|
  {
    seq(|texts|, i requires 0 <= i < |texts| => c.textToOctets(texts[i]))
  }

  function CacheRecordOf(c: Codec, data: RData): Option<CacheRecord> {
    match data
    case A(v4) => Some(CachedA(v4))
    case AAAA(v6) => Some(CachedAaaa(v6))
    case CNAME(target) => Some(CachedCname(c.nameToText(target)))
    case MX(preference, exchange) => Some(CachedMx(preference, c.nameToText(exchange)))
    case TXT(strings) => Some(CachedTxt(Texts(c, strings)))
    case HTTPS(svcb) => Some(CachedHttps(svcb))
    case OtherData(_, _) => None
  }

  predicate IsCacheable(r: Record) {
    !r.data.OtherData?
  }

  predicate IsMark(record: CacheRecord) {
    record.NxDomainMark? || record.NoDataMark?
  }

  function RecordsOf(c: Codec, answers: seq<Record>): seq<CacheRecord> {
    if answers == [] then [] else
    var last := CacheRecordOf(c, answers[|answers| - 1].data);
    RecordsOf(c, answers[..|answers| - 1]) + if last.Some? then [last.value] else []
  }

  method ExtractCacheRecords(c: Codec, msg: Message) returns (r: Option<seq<CacheRecord>>)
    ensures r == if RecordsOf(c, msg.answers) == [] then None else Some(RecordsOf(c, msg.answers))
  {
    var records: seq<CacheRecord> := [];
    for i := 0 to |msg.answers|
      invariant records == RecordsOf(c, msg.answers[..i])
    {
      assert msg.answers[..i + 1][..i] == msg.answers[..i];
      var record := CacheRecordOf(c, msg.answers[i].data);
      if record.Some? {
        records := records + [record.value];
      }
    }
    assert msg.answers[..|msg.answers|] == msg.answers;
    r := if records == [] then None else Some(records);
  }

  /** Least TTL among the answers; a fixed default when there are none. */
  function MinTtl(answers: seq<Record>): (ttl: nat)
    ensures answers == [] ==> ttl == DEFAULT_TTL
    ensures answers != [] ==> exists i :: 0 <= i < |answers| && answers[i].ttl == ttl
    ensures forall i :: 0 <= i < |answers| ==> ttl <= answers[i].ttl
  {
    if answers == [] then DEFAULT_TTL
    else if |answers| == 1 then answers[0].ttl
    else
      var rest := MinTtl(answers[1..]);
      assert forall i :: 1 <= i < |answers| ==> answers[i] == answers[1..][i - 1];
      if answers[0].ttl <= rest then answers[0].ttl
      else
        ghost var k :| 0 <= k < |answers[1..]| && answers[1..][k].ttl == rest;
        assert answers[k + 1].ttl == rest;
        rest
  }

  /** Records and TTL that a response leaves in the cache, if any. */
  function Stored(c: Codec, response: Message): Option<(seq<CacheRecord>, nat)> {
    var records := RecordsOf(c, response.answers);
    if records != [] then Some((records, MinTtl(response.answers)))
    else match response.rcode
      case NXDomain => Some(([NxDomainMark], MinTtl(response.answers)))
      case NoError => Some(([NoDataMark], MinTtl(response.answers)))
      case _ => None
  }

  function DataOf(c: Codec, record: CacheRecord): Option<RData>
    requires !IsMark(record)
  {
    match record
    case CachedA(v4) => Some(A(v4))
    case CachedAaaa(v6) => Some(AAAA(v6))
    case CachedCname(target) =>
      var n := c.nameFromText(target);
      if n.Some? then Some(CNAME(n.value)) else None
    case CachedMx(preference, exchange) =>
      var n := c.nameFromText(exchange);
      if n.Some? then Some(MX(preference, n.value)) else None
    case CachedTxt(strings) => Some(TXT(OctetStrings(c, strings)))
    case CachedHttps(svcb) => Some(HTTPS(svcb))
  }

  /** The answers for `records`, or None when a kept name no longer parses. */
  function AnswersOf(c: Codec, owner: Name, ttl: nat, records: seq<CacheRecord>): (r: Option<seq<Record>>)
    ensures r.Some? ==> forall i :: 0 <= i < |r.value| ==> r.value[i].owner == owner && r.value[i].ttl == ttl
  {
    if records == [] then Some([]) else
    var before, last := AnswersOf(c, owner, ttl, records[..|records| - 1]), records[|records| - 1];
    if before.None? || IsMark(last) then before else
    var data := DataOf(c, last);
    if data.Some? then Some(before.value + [Record(owner, ttl, data.value)]) else None
  }

  /** A response for query `msg` with the kept records, every TTL being `ttl`. */
  function Rebuilt(c: Codec, msg: Message, records: seq<CacheRecord>, ttl: nat): Option<Message> {
    if msg.queries == [] then None else
    var answers := AnswersOf(c, msg.queries[0].name, ttl, records);
    if answers.None? then None else
    var rcode := if records != [] && records[0].NxDomainMark? then NXDomain else NoError;
    Some(ResponseBase(msg).(rcode := rcode, answers := answers.value))
  }

  method BuildResponse(c: Codec, msg: Message, records: seq<CacheRecord>, ttl: nat) returns (r: Option<Message>)
    ensures r == Rebuilt(c, msg, records, ttl)
  {
    if msg.queries == [] {
      return None;
    }
    var response := ResponseBase(msg);
    var owner := msg.queries[0].name;
    for i := 0 to |records|
      invariant AnswersOf(c, owner, ttl, records[..i]) == Some(response.answers)
      invariant response == ResponseBase(msg).(answers := response.answers)
    {
      assert records[..i + 1][..i] == records[..i];
      if !IsMark(records[i]) {
        var data := DataOf(c, records[i]);
        if data.None? {
          AnswersFailEarly(c, owner, ttl, records, i + 1);
          return None;
        }
        response := response.(answers := response.answers + [Record(owner, ttl, data.value)]);
      }
    }
    assert records[..|records|] == records;
    if records != [] && records[0].NxDomainMark? {
      response := response.(rcode := NXDomain);
    }
    if records != [] && records[0].NoDataMark? {
      response := response.(rcode := NoError);
    }
    r := Some(response);
  }

  lemma {:induction false} AnswersFailEarly(c: Codec, owner: Name, ttl: nat, records: seq<CacheRecord>, n: nat)
    requires n <= |records| && AnswersOf(c, owner, ttl, records[..n]).None?
    ensures AnswersOf(c, owner, ttl, records).None?
    decreases |records|
  {
    if n < |records| {
      assert records[..|records| - 1][..n] == records[..n];
      AnswersFailEarly(c, owner, ttl, records[..|records| - 1], n);
    } else {
      assert records[..n] == records;
    }
  }

  // ---------------------------------------------------------------------------
  // Storing and rebuilding
  // ---------------------------------------------------------------------------

  /** The shape of what is ever stored: cacheable records only, or one mark. */
  predicate WellShaped(records: seq<CacheRecord>) {
    || (|records| == 1 && IsMark(records[0]))
    || (records != [] && forall i :: 0 <= i < |records| ==> !IsMark(records[i]))
  }

  predicate IsPositive(records: seq<CacheRecord>) {
    records != [] && !IsMark(records[0])
  }

  /** Every kept name is the text of some name. */
  ghost predicate NamesParse(c: Codec, records: seq<CacheRecord>) {
    forall i :: 0 <= i < |records| ==> RecordParses(c, records[i])
  }

  ghost predicate RecordParses(c: Codec, record: CacheRecord) {
    match record
    case CachedCname(target) => exists n :: target == c.nameToText(n)
    case CachedMx(_, exchange) => exists n :: exchange == c.nameToText(n)
    case _ => true
  }

  lemma {:induction false} RecordsOfShape(c: Codec, answers: seq<Record>)
    ensures forall i :: 0 <= i < |RecordsOf(c, answers)| ==> !IsMark(RecordsOf(c, answers)[i])
    ensures NamesParse(c, RecordsOf(c, answers))
    ensures RecordsOf(c, answers) != [] ==> answers != []
  {
    if answers != [] {
      RecordsOfShape(c, answers[..|answers| - 1]);
    }
  }

  lemma StoredShape(c: Codec, response: Message)
    requires Stored(c, response).Some?
    ensures WellShaped(Stored(c, response).value.0) && NamesParse(c, Stored(c, response).value.0)
    ensures IsPositive(Stored(c, response).value.0) <==> RecordsOf(c, response.answers) != []
  {
    RecordsOfShape(c, response.answers);
  }

  /** One kept record: rebuilding its data and keeping it again changes nothing. */
  lemma RecordRoundTrip(c: Codec, record: CacheRecord)
    requires c.RoundTrips() && !IsMark(record) && RecordParses(c, record)
    ensures DataOf(c, record).Some?
    ensures CacheRecordOf(c, DataOf(c, record).value) == Some(record)
  {
    match record {
      case CachedTxt(strings) =>
        assert Texts(c, OctetStrings(c, strings)) == strings;
      case _ =>
    }
  }

  lemma {:induction false} RecordsRoundTrip(c: Codec, owner: Name, ttl: nat, records: seq<CacheRecord>)
    requires c.RoundTrips() && NamesParse(c, records)
    requires forall i :: 0 <= i < |records| ==> !IsMark(records[i])
    ensures AnswersOf(c, owner, ttl, records).Some?
    ensures RecordsOf(c, AnswersOf(c, owner, ttl, records).value) == records
    ensures |AnswersOf(c, owner, ttl, records).value| == |records|
  {
    hide Codec.RoundTrips, DataOf, CacheRecordOf;
    if records != [] {
      var before, last := records[..|records| - 1], records[|records| - 1];
      RecordsRoundTrip(c, owner, ttl, before);
      RecordRoundTrip(c, last);
      var answers := AnswersOf(c, owner, ttl, records).value;
      assert answers[..|answers| - 1] == AnswersOf(c, owner, ttl, before).value;
      assert records == before + [last];
    }
  }

  /** What is stored rebuilds, and storing the rebuilt response keeps the same records.
      The TTL kept again is the served one for positive entries, the default for negative ones. */
  lemma CacheFixedPoint(c: Codec, msg: Message, records: seq<CacheRecord>, ttl: nat)
    requires c.RoundTrips() && WellShaped(records) && NamesParse(c, records) && msg.queries != []
    ensures Rebuilt(c, msg, records, ttl).Some?
    ensures Stored(c, Rebuilt(c, msg, records, ttl).value) ==
            Some((records, if IsPositive(records) then ttl else DEFAULT_TTL))
  {
    hide Codec.RoundTrips;
    var owner := msg.queries[0].name;
    if IsPositive(records) {
      RecordsRoundTrip(c, owner, ttl, records);
    } else {
      assert records == [records[0]] && records[..0] == [];
      assert AnswersOf(c, owner, ttl, records) == AnswersOf(c, owner, ttl, []);
    }
  }

  // ---------------------------------------------------------------------------
  // What survives from the upstream answer
  // ---------------------------------------------------------------------------

  function Cacheable(answers: seq<Record>): seq<Record> {
    if answers == [] then [] else
    var last := answers[|answers| - 1];
    Cacheable(answers[..|answers| - 1]) + if IsCacheable(last) then [last] else []
  }

  /** Every TXT string among the answers is text. */
  predicate AllText(c: Codec, answers: seq<Record>) {
    forall i :: 0 <= i < |answers| ==> TextData(c, answers[i].data)
  }

  predicate TextData(c: Codec, data: RData) {
    data.TXT? ==> forall j :: 0 <= j < |data.strings| ==> c.IsText(data.strings[j])
  }

  lemma DataSurvives(c: Codec, data: RData)
    requires c.RoundTrips() && TextData(c, data) && !data.OtherData?
    ensures var kept := CacheRecordOf(c, data).value; !IsMark(kept) && DataOf(c, kept) == Some(data)
  {
    match data {
      case TXT(strings) =>
        assert OctetStrings(c, Texts(c, strings)) == strings;
      case _ =>
    }
  }

  function Relabelled(answers: seq<Record>, owner: Name, ttl: nat): (r: seq<Record>)
    ensures |r| == |answers|
  {
    seq(|answers|, i requires 0 <= i < |answers| => Record(owner, ttl, answers[i].data))
  }

  lemma {:induction false} AnswersSurvive(c: Codec, answers: seq<Record>, owner: Name, ttl: nat)
    requires c.RoundTrips() && AllText(c, answers)
    ensures AnswersOf(c, owner, ttl, RecordsOf(c, answers)) == Some(Relabelled(Cacheable(answers), owner, ttl))
  {
    hide Codec.RoundTrips, DataOf, CacheRecordOf, TextData;
    if answers == [] {
      assert Relabelled([], owner, ttl) == [];
    } else {
      var before, last := answers[..|answers| - 1], answers[|answers| - 1];
      AnswersSurvive(c, before, owner, ttl);
      CacheableData(c, last.data);
      if IsCacheable(last) {
        DataSurvives(c, last.data);
        var kept := CacheRecordOf(c, last.data).value;
        assert RecordsOf(c, answers)[..|RecordsOf(c, answers)| - 1] == RecordsOf(c, before);
        assert Relabelled(Cacheable(answers), owner, ttl)
            == Relabelled(Cacheable(before), owner, ttl) + [Record(owner, ttl, last.data)];
      } else {
        assert RecordsOf(c, answers) == RecordsOf(c, before);
        assert Cacheable(answers) == Cacheable(before);
      }
    }
  }

  lemma CacheableData(c: Codec, data: RData)
    ensures CacheRecordOf(c, data).Some? <==> !data.OtherData?
  {
  }

  lemma {:induction false} RecordsOfCount(c: Codec, answers: seq<Record>)
    ensures |RecordsOf(c, answers)| == |Cacheable(answers)|
  {
    if answers != [] {
      RecordsOfCount(c, answers[..|answers| - 1]);
    }
  }

  /** A cached answer has the cacheable records of the upstream answer, in order, under the query name;
      the response code is the upstream one unless an error code came with cacheable answers. */
  lemma StoreThenRebuild(c: Codec, response: Message, msg: Message, ttl: nat)
    requires c.RoundTrips() && AllText(c, response.answers) && msg.queries != []
    requires Stored(c, response).Some?
    ensures var again := Rebuilt(c, msg, Stored(c, response).value.0, ttl);
            && again.Some?
            && again.value.answers == Relabelled(Cacheable(response.answers), msg.queries[0].name, ttl)
            && (again.value.rcode == response.rcode <==>
                response.rcode == NoError || Cacheable(response.answers) == [])
            && again.value.id == msg.id && again.value.queries == [msg.queries[0]]
  {
    hide Codec.RoundTrips;
    var owner, records := msg.queries[0].name, RecordsOf(c, response.answers);
    AnswersSurvive(c, response.answers, owner, ttl);
    RecordsOfCount(c, response.answers);
    RecordsOfShape(c, response.answers);
    if records == [] {
      var kept := Stored(c, response).value.0;
      assert kept[..0] == [];
      assert AnswersOf(c, owner, ttl, kept) == AnswersOf(c, owner, ttl, []);
    }
  }

  // ---------------------------------------------------------------------------
  // What is stored at all
  // ---------------------------------------------------------------------------

  predicate HasCacheable(answers: seq<Record>) {
    exists i :: 0 <= i < |answers| && IsCacheable(answers[i])
  }

  lemma {:induction false} RecordsExactly(c: Codec, answers: seq<Record>)
    ensures RecordsOf(c, answers) != [] <==> HasCacheable(answers)
  {
    hide CacheRecordOf;
    if answers != [] {
      var before, last := answers[..|answers| - 1], answers[|answers| - 1];
      RecordsExactly(c, before);
      CacheableData(c, last.data);
      if i :| 0 <= i < |answers| && IsCacheable(answers[i]) && i < |before| {
        assert IsCacheable(before[i]);
      }
      if i :| 0 <= i < |before| && IsCacheable(before[i]) {
        assert IsCacheable(answers[i]);
      }
    }
  }

  /** A response leaves something in the cache exactly when it has a cacheable answer or a code that
      stands for a negative one. */
  lemma StoredExactly(c: Codec, response: Message)
    ensures Stored(c, response).Some? <==>
            HasCacheable(response.answers) || response.rcode == NXDomain || response.rcode == NoError
  {
    RecordsExactly(c, response.answers);
  }

  lemma {:induction false} RebuiltIsCacheable(c: Codec, owner: Name, ttl: nat, records: seq<CacheRecord>)
    requires AnswersOf(c, owner, ttl, records).Some?
    ensures forall i :: 0 <= i < |AnswersOf(c, owner, ttl, records).value| ==>
                          IsCacheable(AnswersOf(c, owner, ttl, records).value[i])
  {
    if records != [] {
      RebuiltIsCacheable(c, owner, ttl, records[..|records| - 1]);
    }
  }
}
