/**
 Whole runs of the query cache. Any number of queries are in flight at once; each holds a
 response obtained from upstream or from the cache and writes it back later. The clock may
 advance and entries may be evicted between any two steps.

 A lineage records which upstream answer an entry goes back to. Steps never read it.
*/
module CacheRuns {
  import opened Wrappers
  import opened Dns
  import opened Query
  import opened CacheRecords
  import opened QueryCache

  /** The upstream answer an entry descends from: when and with which records and least TTL it was
      stored, and the time its copies have since spent between lookup and write-back. */
  datatype Lineage = Lineage(storedAt: nat, minTtl: nat, records: seq<CacheRecord>, delay: nat)
  {
    /** Up to here the upstream answer is good, allowing for the delays. */
    function GoodUntil(): nat {
      storedAt + minTtl * SECOND + delay
    }
  }

  datatype Origin = FromUpstream | FromCache(lineage: Lineage, lookedUpAt: nat)

  datatype Flight = Flight(key: CacheKey, response: Message, origin: Origin)

  datatype State = State(now: nat, slots: Slots, lineages: map<CacheKey, Lineage>, flights: map<nat, Flight>)

  datatype Step =
    | Tick(duration: nat)
    | Evict(key: CacheKey)
    | Upstream(id: nat, key: CacheKey, response: Message)
    | Hit(id: nat, key: CacheKey, msg: Message)
    | Rebalance(id: nat, answers: seq<Record>)
    | WriteBack(id: nat)
    | Abandon(id: nat)

  const INITIAL: State := State(0, map[], map[], map[])

  /** Reordering, dropping some answers and renaming owners keep each answer's data and TTL. */
  ghost predicate Rebalanced(before: seq<Record>, after: seq<Record>) {
    && (before != [] ==> after != [])
    && forall i :: 0 <= i < |after| ==> Among(after[i], before)
  }

  /** `answers` has the record `r`, possibly under another owner. */
  ghost predicate Among(r: Record, answers: seq<Record>) {
    exists j :: 0 <= j < |answers| && SameButOwner(r, answers[j])
  }

  predicate SameButOwner(a: Record, b: Record) {
    a.data == b.data && a.ttl == b.ttl
  }

  /** The lineage of an entry written from flight `f`. */
  function WrittenLineage(f: Flight, records: seq<CacheRecord>, ttl: nat, now: nat): Lineage {
    match f.origin
    case FromUpstream => Lineage(now, ttl, records, 0)
    case FromCache(l, at) => l.(delay := l.delay + if now >= at then now - at else 0)
  }

  /** One step; a step that is not enabled changes nothing. */
  ghost function Apply(c: Codec, cfg: CacheConfig, s: State, step: Step): State {
    match step
    case Tick(d) => s.(now := s.now + d)
    case Evict(key) => s.(slots := s.slots - {key}, lineages := s.lineages - {key})
    case Upstream(id, key, response) =>
      s.(flights := s.flights[id := Flight(key, response, FromUpstream)])
    case Hit(id, key, msg) =>
      var entry := Readable(s.slots, key, s.now);
      if entry.None? || key !in s.lineages then s else
      var response := HitResponse(c, cfg, msg, entry.value, s.now);
      s.(flights := s.flights[id := Flight(key, response, FromCache(s.lineages[key], s.now))])
    case Rebalance(id, answers) =>
      if id in s.flights && Rebalanced(s.flights[id].response.answers, answers) then
        var f := s.flights[id];
        s.(flights := s.flights[id := f.(response := f.response.(answers := answers))])
      else s
    case WriteBack(id) =>
      if id !in s.flights then s else
      var f := s.flights[id];
      var stored := Stored(c, f.response);
      s.(slots := WrittenBack(c, cfg, s.slots, f.key, f.response, s.now),
         lineages := if stored.Some?
                     then s.lineages[f.key := WrittenLineage(f, stored.value.0, stored.value.1, s.now)]
                     else s.lineages,
         flights := s.flights - {id})
    case Abandon(id) => s.(flights := s.flights - {id})
  }

  ghost function Run(c: Codec, cfg: CacheConfig, steps: seq<Step>): State {
    if steps == [] then INITIAL
    else Apply(c, cfg, Run(c, cfg, steps[..|steps| - 1]), steps[|steps| - 1])
  }

  // ---------------------------------------------------------------------------
  // The invariant
  // ---------------------------------------------------------------------------

  /** A TTL handed out at `at` ends within the good time of `l`, unless it is already zero. */
  predicate Honest(at: nat, ttl: nat, l: Lineage) {
    ttl == 0 || at + ttl * SECOND <= l.GoodUntil()
  }

  ghost predicate SlotOk(cfg: CacheConfig, slot: Slot, l: Lineage, now: nat) {
    var e := slot.entry;
    && e.createdAt <= now && l.storedAt <= now
    && slot.deadline == e.createdAt + Lifetime(cfg, e.ttl)
    && WellShaped(e.records)
    && (IsPositive(e.records) ==> Honest(e.createdAt, e.ttl, l))
  }

  /** All answers taken from the cache carry one honest TTL. */
  ghost predicate FlightOk(f: Flight, now: nat) {
    f.origin.FromCache? ==>
      && f.origin.lookedUpAt <= now && f.origin.lineage.storedAt <= now
      && forall i :: 0 <= i < |f.response.answers| ==>
                       Honest(f.origin.lookedUpAt, f.response.answers[i].ttl, f.origin.lineage)
  }

  ghost predicate Inv(cfg: CacheConfig, s: State) {
    && s.lineages.Keys == s.slots.Keys
    && (forall key :: key in s.slots ==> SlotOk(cfg, s.slots[key], s.lineages[key], s.now))
    && (forall id :: id in s.flights ==> FlightOk(s.flights[id], s.now))
  }

  lemma RemainingIsHonest(cfg: CacheConfig, slot: Slot, l: Lineage, now: nat)
    requires !cfg.keepTtl && SlotOk(cfg, slot, l, now) && IsPositive(slot.entry.records)
    ensures Honest(now, slot.entry.RemainingTtl(false, now), l)
  {
  }

  lemma {:induction false} NegativeAnswersNothing(c: Codec, owner: Name, ttl: nat, records: seq<CacheRecord>)
    requires WellShaped(records) && !IsPositive(records)
    ensures AnswersOf(c, owner, ttl, records) == Some([])
  {
    assert records[..0] == [];
    assert AnswersOf(c, owner, ttl, []) == Some([]);
  }

  lemma HitIsOk(c: Codec, cfg: CacheConfig, slot: Slot, l: Lineage, msg: Message, key: CacheKey, now: nat)
    requires !cfg.keepTtl && SlotOk(cfg, slot, l, now)
    ensures FlightOk(Flight(key, HitResponse(c, cfg, msg, slot.entry, now), FromCache(l, now)), now)
  {
    hide AnswersOf, WellShaped, CacheEntry.RemainingTtl;
    var e := slot.entry;
    if msg.queries != [] {
      if IsPositive(e.records) {
        RemainingIsHonest(cfg, slot, l, now);
      } else {
        NegativeAnswersNothing(c, msg.queries[0].name, e.RemainingTtl(false, now), e.records);
      }
    }
  }

  lemma RebalancedIsOk(f: Flight, answers: seq<Record>, now: nat)
    requires FlightOk(f, now) && Rebalanced(f.response.answers, answers)
    ensures FlightOk(f.(response := f.response.(answers := answers)), now)
  {
  }

  /** Writing back moves the end of the TTL by the delay and no more. */
  lemma WrittenIsOk(c: Codec, cfg: CacheConfig, f: Flight, now: nat)
    requires FlightOk(f, now) && Stored(c, f.response).Some?
    ensures var (records, ttl) := Stored(c, f.response).value;
            SlotOk(cfg, Slot(CacheEntry(records, now, ttl), now + Lifetime(cfg, ttl)),
                   WrittenLineage(f, records, ttl, now), now)
  {
    hide RecordsOf, MinTtl, Lifetime;
    StoredShape(c, f.response);
    RecordsOfShape(c, f.response.answers);
    var (records, ttl) := Stored(c, f.response).value;
    if IsPositive(records) && f.origin.FromCache? {
      assert f.response.answers != [];
      var k :| 0 <= k < |f.response.answers| && f.response.answers[k].ttl == ttl;
      assert Honest(f.origin.lookedUpAt, ttl, f.origin.lineage);
    }
  }

  lemma StepKeepsInv(c: Codec, cfg: CacheConfig, s: State, step: Step)
    requires !cfg.keepTtl && Inv(cfg, s)
    ensures Inv(cfg, Apply(c, cfg, s, step))
  {
    hide Lifetime, Stored, HitResponse, WellShaped, Honest, IsPositive, Rebalanced, WrittenLineage;
    var s' := Apply(c, cfg, s, step);
    match step {
      case Tick(d) =>
      case Evict(key) =>
      case Upstream(id, key, response) =>
      case Hit(id, key, msg) =>
        if Readable(s.slots, key, s.now).Some? {
          HitIsOk(c, cfg, s.slots[key], s.lineages[key], msg, key, s.now);
        }
      case Rebalance(id, answers) =>
        if id in s.flights && Rebalanced(s.flights[id].response.answers, answers) {
          RebalancedIsOk(s.flights[id], answers, s.now);
        }
      case WriteBack(id) =>
        if id in s.flights && Stored(c, s.flights[id].response).Some? {
          WrittenIsOk(c, cfg, s.flights[id], s.now);
        }
      case Abandon(id) =>
    }
  }

  lemma {:induction false} RunKeepsInv(c: Codec, cfg: CacheConfig, steps: seq<Step>)
    requires !cfg.keepTtl
    ensures Inv(cfg, Run(c, cfg, steps))
  {
    if steps != [] {
      RunKeepsInv(c, cfg, steps[..|steps| - 1]);
      StepKeepsInv(c, cfg, Run(c, cfg, steps[..|steps| - 1]), steps[|steps| - 1]);
    }
  }

  // ---------------------------------------------------------------------------
  // What survives re-insertion by hits
  // ---------------------------------------------------------------------------

  /** TTL honesty: in every run, a positive entry is answered with a TTL that ends no later than the
      upstream answer it descends from, plus the delays of its lineage. */
  lemma TtlHonesty(c: Codec, cfg: CacheConfig, steps: seq<Step>, key: CacheKey)
    requires !cfg.keepTtl
    ensures var s := Run(c, cfg, steps);
            var entry := Readable(s.slots, key, s.now);
            entry.Some? && IsPositive(entry.value.records) ==>
              && key in s.lineages
              && var ttl := entry.value.RemainingTtl(false, s.now);
                 ttl == 0 || s.now + ttl * SECOND <= s.lineages[key].GoodUntil()
  {
    RunKeepsInv(c, cfg, steps);
    var s := Run(c, cfg, steps);
    if key in s.slots && IsPositive(s.slots[key].entry.records) {
      RemainingIsHonest(cfg, s.slots[key], s.lineages[key], s.now);
    }
  }

  /** Without a minimum TTL, no positive entry is served once its upstream answer has run out. */
  lemma NoServiceAfterExpiry(c: Codec, cfg: CacheConfig, steps: seq<Step>, key: CacheKey)
    requires !cfg.keepTtl && cfg.minTtl == 0
    ensures var s := Run(c, cfg, steps);
            var entry := Readable(s.slots, key, s.now);
            entry.Some? && IsPositive(entry.value.records) ==>
              key in s.lineages && s.now < s.lineages[key].GoodUntil()
  {
    RunKeepsInv(c, cfg, steps);
  }

  // ---------------------------------------------------------------------------
  // Runs in which a hit's lookup and write-back share one instant
  // ---------------------------------------------------------------------------

  ghost predicate Instantaneous(c: Codec, cfg: CacheConfig, steps: seq<Step>) {
    steps == [] ||
    var before, last := steps[..|steps| - 1], steps[|steps| - 1];
    && Instantaneous(c, cfg, before)
    && var s := Run(c, cfg, before);
       last.WriteBack? && last.id in s.flights && s.flights[last.id].origin.FromCache? ==>
         s.flights[last.id].origin.lookedUpAt == s.now
  }

  ghost predicate Undelayed(s: State) {
    && (forall key :: key in s.lineages ==> s.lineages[key].delay == 0)
    && (forall id :: id in s.flights && s.flights[id].origin.FromCache? ==> s.flights[id].origin.lineage.delay == 0)
  }

  lemma StepKeepsUndelayed(c: Codec, cfg: CacheConfig, s: State, step: Step)
    requires Undelayed(s)
    requires step.WriteBack? && step.id in s.flights && s.flights[step.id].origin.FromCache? ==>
               s.flights[step.id].origin.lookedUpAt == s.now
    ensures Undelayed(Apply(c, cfg, s, step))
  {
    hide Stored, HitResponse, WrittenBack, Rebalanced;
    match step {
      case WriteBack(id) =>
      case _ =>
    }
  }

  lemma {:induction false} NoDelay(c: Codec, cfg: CacheConfig, steps: seq<Step>)
    requires Instantaneous(c, cfg, steps)
    ensures Undelayed(Run(c, cfg, steps))
  {
    hide Apply;
    if steps != [] {
      NoDelay(c, cfg, steps[..|steps| - 1]);
      StepKeepsUndelayed(c, cfg, Run(c, cfg, steps[..|steps| - 1]), steps[|steps| - 1]);
    }
  }

  /** The exact bound: no TTL reaches past the upstream answer's own expiry. */
  lemma TtlHonestyWithoutDelay(c: Codec, cfg: CacheConfig, steps: seq<Step>, key: CacheKey)
    requires !cfg.keepTtl && Instantaneous(c, cfg, steps)
    ensures var s := Run(c, cfg, steps);
            var entry := Readable(s.slots, key, s.now);
            entry.Some? && IsPositive(entry.value.records) ==>
              && key in s.lineages
              && var ttl, l := entry.value.RemainingTtl(false, s.now), s.lineages[key];
                 ttl == 0 || s.now + ttl * SECOND <= l.storedAt + l.minTtl * SECOND
  {
    TtlHonesty(c, cfg, steps, key);
    NoDelay(c, cfg, steps);
  }

  // ---------------------------------------------------------------------------
  // How long a written answer is read
  // ---------------------------------------------------------------------------

  /** Taken in state `s`, the step neither evicts `key` nor writes it. */
  predicate Spares(s: State, step: Step, key: CacheKey) {
    match step
    case Evict(k) => k != key
    case WriteBack(id) => id in s.flights ==> s.flights[id].key != key
    case _ => true
  }

  /** No step of `after`, taken on from the run `before`, evicts or writes `key`. */
  ghost predicate AllSpare(c: Codec, cfg: CacheConfig, before: seq<Step>, after: seq<Step>, key: CacheKey) {
    after == [] ||
    var n := |after| - 1;
    AllSpare(c, cfg, before, after[..n], key) && Spares(Run(c, cfg, before + after[..n]), after[n], key)
  }

  lemma StepSpares(c: Codec, cfg: CacheConfig, s: State, step: Step, key: CacheKey)
    requires Spares(s, step, key) && key in s.slots
    ensures var t := Apply(c, cfg, s, step);
            key in t.slots && t.slots[key] == s.slots[key] && s.now <= t.now
  {
    hide Stored, HitResponse, Rebalanced, WrittenLineage, Lifetime;
  }

  lemma {:induction false} EntryStays(c: Codec, cfg: CacheConfig, before: seq<Step>, after: seq<Step>, key: CacheKey)
    requires key in Run(c, cfg, before).slots && AllSpare(c, cfg, before, after, key)
    ensures var s, t := Run(c, cfg, before), Run(c, cfg, before + after);
            key in t.slots && t.slots[key] == s.slots[key] && s.now <= t.now
  {
    hide Run, Apply, Spares;
    if after == [] {
      assert before + after == before;
    } else {
      var n := |after| - 1;
      EntryStays(c, cfg, before, after[..n], key);
      StepSpares(c, cfg, Run(c, cfg, before + after[..n]), after[n], key);
      RunAppend(c, cfg, before + after[..n], after[n]);
      assert before + after == before + after[..n] + [after[n]];
    }
  }

  /** An answer written back is read exactly for its time, whatever else happens: its least TTL when that
      is kept or lies within the bounds, else the bound it lies beyond. Meanwhile hits carry its records
      with the whole seconds left of its TTL. */
  lemma WrittenIsReadInTime(c: Codec, cfg: CacheConfig, before: seq<Step>, id: nat, after: seq<Step>, msg: Message)
    requires cfg.Valid() && id in Run(c, cfg, before).flights
    requires var f := Run(c, cfg, before).flights[id];
             Stored(c, f.response).Some? && AllSpare(c, cfg, before + [WriteBack(id)], after, f.key)
    ensures var s, t := Run(c, cfg, before), Run(c, cfg, before + [WriteBack(id)] + after);
            var f := s.flights[id]; var (records, ttl) := Stored(c, f.response).value;
            var entry := Readable(t.slots, f.key, t.now);
            && s.now <= t.now && ReadableInTime(cfg, ttl, t.now - s.now, entry.Some?)
            && (entry.Some? ==>
                  && entry.value.records == records
                  && forall r <- HitResponse(c, cfg, msg, entry.value, t.now).answers ::
                    ServedTtl(cfg, ttl, t.now - s.now, r.ttl))
  {
    hide Run, Stored, AllSpare, CacheEntry.RemainingTtl, AnswersOf, Lifetime;
    var s, t := Run(c, cfg, before), Run(c, cfg, before + [WriteBack(id)] + after);
    var f := s.flights[id];
    var (records, ttl) := Stored(c, f.response).value;
    RunAppend(c, cfg, before, WriteBack(id));
    EntryStays(c, cfg, before + [WriteBack(id)], after, f.key);
    PutIsReadInTime(cfg, s.slots, f.key, records, ttl, s.now, t.now);
  }

  // ---------------------------------------------------------------------------
  // Entries keep to the records of their upstream answer
  // ---------------------------------------------------------------------------

  ghost predicate DescendsFrom(records: seq<CacheRecord>, l: Lineage) {
    forall i :: 0 <= i < |records| ==> records[i] in l.records
  }

  ghost predicate Descent(c: Codec, s: State) {
    && s.lineages.Keys == s.slots.Keys
    && (forall key :: key in s.slots ==>
                        && DescendsFrom(s.slots[key].entry.records, s.lineages[key])
                        && WellShaped(s.slots[key].entry.records) && NamesParse(c, s.slots[key].entry.records))
    && (forall id :: id in s.flights && s.flights[id].origin.FromCache? ==>
                       CarriesOnly(c, s.flights[id].response, s.flights[id].origin.lineage))
  }

  /** Whatever `response` leaves in the cache comes from the upstream answer of `l`. */
  ghost predicate CarriesOnly(c: Codec, response: Message, l: Lineage) {
    && (forall i :: 0 <= i < |response.answers| ==>
                      var r := CacheRecordOf(c, response.answers[i].data); r.Some? && r.value in l.records)
    && (response.answers == [] ==>
          response.rcode == ServFail || (Stored(c, response).Some? && DescendsFrom(Stored(c, response).value.0, l)))
  }

  lemma {:induction false} RecordsOfMembers(c: Codec, answers: seq<Record>, l: Lineage)
    requires forall i :: 0 <= i < |answers| ==>
                           var r := CacheRecordOf(c, answers[i].data); r.Some? && r.value in l.records
    ensures DescendsFrom(RecordsOf(c, answers), l)
    ensures answers != [] ==> RecordsOf(c, answers) != []
  {
    hide CacheRecordOf;
    if answers != [] {
      RecordsOfMembers(c, answers[..|answers| - 1], l);
    }
  }

  lemma {:induction false} MembersOfRecordsOf(c: Codec, answers: seq<Record>, l: Lineage)
    requires DescendsFrom(RecordsOf(c, answers), l) && |RecordsOf(c, answers)| == |answers|
    ensures forall i :: 0 <= i < |answers| ==>
                          var r := CacheRecordOf(c, answers[i].data); r.Some? && r.value in l.records
  {
    hide CacheRecordOf;
    if answers != [] {
      var before, n := answers[..|answers| - 1], |answers| - 1;
      RecordsOfCount(c, before);
      CacheableCount(before);
      assert RecordsOf(c, answers)[..n] == RecordsOf(c, before);
      assert RecordsOf(c, answers)[n] == CacheRecordOf(c, answers[n].data).value;
      forall i | 0 <= i < |RecordsOf(c, before)| ensures RecordsOf(c, before)[i] in l.records {
        assert RecordsOf(c, before)[i] == RecordsOf(c, answers)[i];
      }
      MembersOfRecordsOf(c, before, l);
    }
  }

  lemma {:induction false} CacheableCount(answers: seq<Record>)
    ensures |Cacheable(answers)| <= |answers|
  {
    if answers != [] {
      CacheableCount(answers[..|answers| - 1]);
    }
  }

  lemma HitCarriesOnly(c: Codec, cfg: CacheConfig, msg: Message, entry: CacheEntry, l: Lineage, now: nat)
    requires c.RoundTrips() && WellShaped(entry.records) && NamesParse(c, entry.records)
    requires DescendsFrom(entry.records, l)
    ensures CarriesOnly(c, HitResponse(c, cfg, msg, entry, now), l)
  {
    hide Codec.RoundTrips, CacheRecordOf, NamesParse, CacheEntry.RemainingTtl;
    if msg.queries != [] {
      var ttl, owner := entry.RemainingTtl(cfg.keepTtl, now), msg.queries[0].name;
      CacheFixedPoint(c, msg, entry.records, ttl);
      if IsPositive(entry.records) {
        RecordsRoundTrip(c, owner, ttl, entry.records);
        MembersOfRecordsOf(c, AnswersOf(c, owner, ttl, entry.records).value, l);
      } else {
        NegativeAnswersNothing(c, owner, ttl, entry.records);
      }
    }
  }

  lemma WrittenDescends(c: Codec, f: Flight, now: nat)
    requires Stored(c, f.response).Some?
    requires f.origin.FromCache? ==> CarriesOnly(c, f.response, f.origin.lineage)
    ensures var (records, ttl) := Stored(c, f.response).value;
            DescendsFrom(records, WrittenLineage(f, records, ttl, now)) && WellShaped(records) && NamesParse(c, records)
  {
    hide CacheRecordOf, NamesParse;
    StoredShape(c, f.response);
    if f.origin.FromCache? && f.response.answers != [] {
      RecordsOfMembers(c, f.response.answers, f.origin.lineage);
    }
  }

  lemma StepKeepsDescent(c: Codec, cfg: CacheConfig, s: State, step: Step)
    requires c.RoundTrips() && Descent(c, s)
    ensures Descent(c, Apply(c, cfg, s, step))
  {
    hide Codec.RoundTrips, CacheRecordOf, NamesParse, WellShaped, DescendsFrom, Stored, HitResponse, WrittenLineage;
    hide Rebalanced, CarriesOnly;
    match step {
      case Hit(id, key, msg) =>
        if Readable(s.slots, key, s.now).Some? {
          HitCarriesOnly(c, cfg, msg, s.slots[key].entry, s.lineages[key], s.now);
        }
      case Rebalance(id, answers) =>
        if id in s.flights && s.flights[id].origin.FromCache? && Rebalanced(s.flights[id].response.answers, answers) {
          RebalancedCarriesOnly(c, s.flights[id].response, answers, s.flights[id].origin.lineage);
        }
      case WriteBack(id) =>
        if id in s.flights && Stored(c, s.flights[id].response).Some? {
          WrittenDescends(c, s.flights[id], s.now);
        }
      case _ =>
    }
  }

  lemma RebalancedCarriesOnly(c: Codec, response: Message, answers: seq<Record>, l: Lineage)
    requires CarriesOnly(c, response, l) && Rebalanced(response.answers, answers)
    ensures CarriesOnly(c, response.(answers := answers), l)
  {
    hide CacheRecordOf, Stored;
    if answers == [] {
      assert response.(answers := answers) == response;
    }
  }

  /** In every run, an entry holds only records of the upstream answer its lineage names. */
  lemma {:induction false} RunKeepsDescent(c: Codec, cfg: CacheConfig, steps: seq<Step>)
    requires c.RoundTrips()
    ensures Descent(c, Run(c, cfg, steps))
  {
    if steps != [] {
      RunKeepsDescent(c, cfg, steps[..|steps| - 1]);
      StepKeepsDescent(c, cfg, Run(c, cfg, steps[..|steps| - 1]), steps[|steps| - 1]);
    }
  }

  // ---------------------------------------------------------------------------
  // What re-insertion by hits defeats
  // ---------------------------------------------------------------------------

  /** Wait, look the entry up, and write the hit back at once. */
  function Round(key: CacheKey, msg: Message, wait: nat): seq<Step> {
    [Tick(wait), Hit(0, key, msg), WriteBack(0)]
  }

  /** Store one upstream answer, then `n` rounds. */
  function Refreshing(key: CacheKey, response: Message, msg: Message, wait: nat, n: nat): seq<Step> {
    if n == 0 then [Upstream(0, key, response), WriteBack(0)]
    else Refreshing(key, response, msg, wait, n - 1) + Round(key, msg, wait)
  }

  /** `key` holds `records`, written at the present instant with `ttl`, going back to `l`. */
  ghost predicate Holds(cfg: CacheConfig, s: State, key: CacheKey, records: seq<CacheRecord>, ttl: nat, l: Lineage) {
    && key in s.slots && s.slots[key] == Slot(CacheEntry(records, s.now, ttl), s.now + Lifetime(cfg, ttl))
    && key in s.lineages && s.lineages[key] == l
  }

  lemma RunAppend(c: Codec, cfg: CacheConfig, steps: seq<Step>, step: Step)
    ensures Run(c, cfg, steps + [step]) == Apply(c, cfg, Run(c, cfg, steps), step)
  {
    assert (steps + [step])[..|steps|] == steps;
  }

  lemma RunRound(c: Codec, cfg: CacheConfig, steps: seq<Step>, key: CacheKey, msg: Message, wait: nat)
    ensures Run(c, cfg, steps + Round(key, msg, wait)) ==
            Apply(c, cfg, Apply(c, cfg, Apply(c, cfg, Run(c, cfg, steps), Tick(wait)), Hit(0, key, msg)), WriteBack(0))
  {
    hide Run, Apply;
    RunAppend(c, cfg, steps, Tick(wait));
    RunAppend(c, cfg, steps + [Tick(wait)], Hit(0, key, msg));
    RunAppend(c, cfg, steps + [Tick(wait)] + [Hit(0, key, msg)], WriteBack(0));
    assert steps + Round(key, msg, wait) == steps + [Tick(wait)] + [Hit(0, key, msg)] + [WriteBack(0)];
  }

  /** The TTL an entry has after a hit `wait` later is written back. */
  function TtlAfterHit(keepTtl: bool, records: seq<CacheRecord>, ttl: nat, wait: nat): nat {
    if !IsPositive(records) then DEFAULT_TTL
    else if keepTtl then ttl
    else if wait >= ttl * SECOND then 0 else (ttl * SECOND - wait) / SECOND
  }

  /** As long as the wait is shorter than the entry's lifetime, the hit renews the entry. */
  lemma RoundRenews(c: Codec, cfg: CacheConfig, s: State, key: CacheKey, msg: Message, wait: nat,
                    records: seq<CacheRecord>, ttl: nat, l: Lineage)
    requires c.RoundTrips() && msg.queries != []
    requires WellShaped(records) && NamesParse(c, records)
    requires Holds(cfg, s, key, records, ttl, l) && wait < Lifetime(cfg, ttl)
    ensures var s' := Apply(c, cfg, Apply(c, cfg, Apply(c, cfg, s, Tick(wait)), Hit(0, key, msg)), WriteBack(0));
            s'.now == s.now + wait && Holds(cfg, s', key, records, TtlAfterHit(cfg.keepTtl, records, ttl, wait), l)
  {
    hide Codec.RoundTrips, NamesParse, WellShaped, Stored, Rebuilt, Lifetime;
    var remaining := CacheEntry(records, s.now, ttl).RemainingTtl(cfg.keepTtl, s.now + wait);
    CacheFixedPoint(c, msg, records, remaining);
    var s1 := Apply(c, cfg, s, Tick(wait));
    var s2 := Apply(c, cfg, s1, Hit(0, key, msg));
    assert Readable(s1.slots, key, s1.now) == Some(CacheEntry(records, s.now, ttl));
    assert s2.flights[0] == Flight(key, Rebuilt(c, msg, records, remaining).value, FromCache(l, s1.now));
  }

  /** Storing an upstream answer starts the lineage. */
  lemma StoreStarts(c: Codec, cfg: CacheConfig, key: CacheKey, response: Message)
    requires Stored(c, response).Some?
    ensures var s := Run(c, cfg, [Upstream(0, key, response), WriteBack(0)]);
            var (records, ttl) := Stored(c, response).value;
            s.now == 0 && Holds(cfg, s, key, records, ttl, Lineage(0, ttl, records, 0))
  {
    hide Stored, Lifetime;
    var steps := [Upstream(0, key, response), WriteBack(0)];
    assert steps == [] + [Upstream(0, key, response)] + [WriteBack(0)];
    RunAppend(c, cfg, [], Upstream(0, key, response));
    RunAppend(c, cfg, [] + [Upstream(0, key, response)], WriteBack(0));
    assert WrittenLineage(Flight(key, response, FromUpstream), Stored(c, response).value.0,
        Stored(c, response).value.1, 0)
        == Lineage(0, Stored(c, response).value.1, Stored(c, response).value.0, 0);
  }

  /** TTL of the entry after `n` rounds. */
  function TtlAfterRounds(keepTtl: bool, records: seq<CacheRecord>, ttl: nat, wait: nat, n: nat): nat {
    if n == 0 then ttl else TtlAfterHit(keepTtl, records, TtlAfterRounds(keepTtl, records, ttl, wait, n - 1), wait)
  }

  lemma {:induction false} RefreshingKeeps(c: Codec, cfg: CacheConfig, key: CacheKey, response: Message, msg: Message,
                                           wait: nat, n: nat)
    requires c.RoundTrips() && msg.queries != [] && Stored(c, response).Some?
    requires var (records, ttl) := Stored(c, response).value;
             forall k :: 0 <= k < n ==> wait < Lifetime(cfg, TtlAfterRounds(cfg.keepTtl, records, ttl, wait, k))
    ensures var s := Run(c, cfg, Refreshing(key, response, msg, wait, n));
            var (records, ttl) := Stored(c, response).value;
            && s.now == n * wait
            && Holds(cfg, s, key, records, TtlAfterRounds(cfg.keepTtl, records, ttl, wait, n),
                Lineage(0, ttl, records, 0))
  {
    hide Codec.RoundTrips, NamesParse, WellShaped, Stored, Lifetime, Apply, Run, TtlAfterHit;
    var (records, ttl) := Stored(c, response).value;
    if n == 0 {
      StoreStarts(c, cfg, key, response);
    } else {
      RefreshingKeeps(c, cfg, key, response, msg, wait, n - 1);
      StoredShape(c, response);
      var before := Refreshing(key, response, msg, wait, n - 1);
      RunRound(c, cfg, before, key, msg, wait);
      RoundRenews(c, cfg, Run(c, cfg, before), key, msg, wait, records,
        TtlAfterRounds(cfg.keepTtl, records, ttl, wait, n - 1),
                  Lineage(0, ttl, records, 0));
    }
  }

  /** The entry `key` can be read in `s` more than `age` after upstream's answer with `records` and least
      TTL `ttl` was stored, and no delay has added to that. */
  ghost predicate ServedAtAge(s: State, key: CacheKey, records: seq<CacheRecord>, ttl: nat, age: nat) {
    && Readable(s.slots, key, s.now).Some? && Readable(s.slots, key, s.now).value.records == records
    && key in s.lineages && s.lineages[key] == Lineage(0, ttl, records, 0)
    && s.now > age
  }

  ghost predicate SomeRunServes(c: Codec, cfg: CacheConfig, key: CacheKey, records: seq<CacheRecord>, ttl: nat,
                                age: nat) {
    exists steps :: ServedAtAge(Run(c, cfg, steps), key, records, ttl, age)
  }

  /** There is no age at which upstream's answer is no longer served. */
  ghost predicate ServedForEver(c: Codec, cfg: CacheConfig, key: CacheKey, records: seq<CacheRecord>, ttl: nat) {
    forall age :: SomeRunServes(c, cfg, key, records, ttl, age)
  }

  /** With a minimum TTL, hits keep any upstream answer readable past every age: the minimum applies anew
      each time the entry is written back. */
  lemma MinTtlIsNoBound(c: Codec, cfg: CacheConfig, key: CacheKey, response: Message, msg: Message, age: nat)
    requires c.RoundTrips() && !cfg.keepTtl && 0 < cfg.minTtl <= cfg.maxTtl
    requires msg.queries != [] && Stored(c, response).Some?
    ensures SomeRunServes(c, cfg, key, Stored(c, response).value.0, Stored(c, response).value.1, age)
  {
    hide Codec.RoundTrips, Stored, Run, TtlAfterRounds;
    var wait, n := cfg.minTtl * SECOND - 1, age + 1;
    RefreshingKeeps(c, cfg, key, response, msg, wait, n);
    var steps := Refreshing(key, response, msg, wait, n);
    Times(n, wait);
    assert ServedAtAge(Run(c, cfg, steps), key, Stored(c, response).value.0, Stored(c, response).value.1, age);
  }

  lemma Times(n: nat, wait: nat)
    requires wait >= 1
    ensures n * wait >= n
  {
  }

  lemma LifetimeIsWholeSeconds(cfg: CacheConfig, ttl: nat)
    ensures Lifetime(cfg, ttl) > 0 ==> Lifetime(cfg, ttl) >= SECOND
  {
  }

  /** Negative answers have no TTL of their own in the rebuilt response, so each hit renews them with the
      default TTL: once readable, they stay so past every age, even without a minimum TTL. So do positive
      answers whose TTL is not counted down. */
  lemma RenewedEntriesNeverExpire(c: Codec, cfg: CacheConfig, key: CacheKey, response: Message, msg: Message, age: nat)
    requires c.RoundTrips() && cfg.Valid() && msg.queries != []
    requires Stored(c, response).Some? && (cfg.keepTtl || !IsPositive(Stored(c, response).value.0))
    requires Lifetime(cfg, Stored(c, response).value.1) > 0
    ensures SomeRunServes(c, cfg, key, Stored(c, response).value.0, Stored(c, response).value.1, age)
  {
    hide Codec.RoundTrips, Run, Stored;
    var (records, ttl) := Stored(c, response).value;
    var wait, n := SECOND - 1, age + 1;
    forall k | 0 <= k < n ensures wait < Lifetime(cfg, TtlAfterRounds(cfg.keepTtl, records, ttl, wait, k)) {
      RenewedTtl(cfg, records, ttl, wait, k);
      LifetimeIsWholeSeconds(cfg, ttl);
    }
    RenewedTtl(cfg, records, ttl, wait, n);
    RefreshingKeeps(c, cfg, key, response, msg, wait, n);
    Times(n, wait);
    var steps := Refreshing(key, response, msg, wait, n);
    assert ServedAtAge(Run(c, cfg, steps), key, records, ttl, age);
  }

  lemma {:induction false} RenewedTtl(cfg: CacheConfig, records: seq<CacheRecord>, ttl: nat, wait: nat, k: nat)
    requires cfg.keepTtl || !IsPositive(records)
    ensures TtlAfterRounds(cfg.keepTtl, records, ttl, wait, k) ==
            if k == 0 || IsPositive(records) then ttl else DEFAULT_TTL
  {
    if k > 0 {
      RenewedTtl(cfg, records, ttl, wait, k - 1);
    }
  }

  lemma {:induction false} TtlCountsDown(records: seq<CacheRecord>, ttl: nat, wait: nat, k: nat)
    requires IsPositive(records) && k < ttl && SECOND - 1 <= wait <= SECOND
    ensures TtlAfterRounds(false, records, ttl, wait, k) == ttl - k
  {
    if k > 0 {
      TtlCountsDown(records, ttl, wait, k - 1);
    }
  }

  /** How long a positive answer can be kept readable by hits under any positive maximum TTL: for its whole
      upstream TTL, less a nanosecond per second when the maximum is one second. */
  function OwnTime(cfg: CacheConfig, ttl: nat): nat {
    ttl * if cfg.maxTtl > 1 then SECOND else SECOND - 1
  }

  /** A maximum TTL does not bound the age: a positive answer stays readable up to its own TTL. */
  lemma MaxTtlIsNoBound(c: Codec, cfg: CacheConfig, key: CacheKey, response: Message, msg: Message, age: nat)
    requires c.RoundTrips() && !cfg.keepTtl && cfg.Valid() && cfg.maxTtl > 0
    requires msg.queries != [] && Stored(c, response).Some? && IsPositive(Stored(c, response).value.0)
    requires age + 1 < OwnTime(cfg, Stored(c, response).value.1)
    ensures SomeRunServes(c, cfg, key, Stored(c, response).value.0, Stored(c, response).value.1, age)
  {
    hide Codec.RoundTrips, Run, Stored, TtlAfterRounds;
    var (records, ttl) := Stored(c, response).value;
    var wait, n := if cfg.maxTtl > 1 then SECOND else SECOND - 1, ttl - 1;
    forall k | 0 <= k < n ensures wait < Lifetime(cfg, TtlAfterRounds(false, records, ttl, wait, k)) {
      TtlCountsDown(records, ttl, wait, k);
    }
    RefreshingKeeps(c, cfg, key, response, msg, wait, n);
    TtlCountsDown(records, ttl, wait, n);
    var before := Refreshing(key, response, msg, wait, n);
    RunAppend(c, cfg, before, Tick(SECOND - 1));
    LastSecond(ttl, wait);
    assert ServedAtAge(Run(c, cfg, before + [Tick(SECOND - 1)]), key, records, ttl, age);
  }

  lemma LastSecond(ttl: nat, wait: nat)
    requires ttl > 0 && SECOND - 1 <= wait <= SECOND
    ensures (ttl - 1) * wait + SECOND - 1 >= ttl * wait - 1
  {
    assert ttl * wait == (ttl - 1) * wait + wait;
  }

  // ---------------------------------------------------------------------------
  // Exactly when ages are bounded
  // ---------------------------------------------------------------------------

  /** What an answer with no lifetime leaves is never readable, so nothing descends from it. */
  ghost predicate DeadStaysDead(cfg: CacheConfig, s: State) {
    && s.lineages.Keys == s.slots.Keys
    && (forall key :: key in s.slots ==> SlotDead(cfg, s.slots[key], s.lineages[key], s.now))
    && (forall id :: id in s.flights ==>
                       (s.flights[id].origin.FromCache? ==> Lifetime(cfg, s.flights[id].origin.lineage.minTtl) > 0))
  }

  ghost predicate SlotDead(cfg: CacheConfig, slot: Slot, l: Lineage, now: nat) {
    Lifetime(cfg, l.minTtl) == 0 ==> slot.deadline <= now
  }

  lemma StepKeepsDead(c: Codec, cfg: CacheConfig, s: State, step: Step)
    requires DeadStaysDead(cfg, s)
    ensures DeadStaysDead(cfg, Apply(c, cfg, s, step))
  {
    hide Lifetime, Stored, HitResponse, Rebalanced;
    match step {
      case WriteBack(id) =>
        if id in s.flights && Stored(c, s.flights[id].response).Some? {
          var (records, ttl) := Stored(c, s.flights[id].response).value;
          assert SlotDead(cfg, Slot(CacheEntry(records, s.now, ttl), s.now + Lifetime(cfg, ttl)),
                          WrittenLineage(s.flights[id], records, ttl, s.now), s.now);
        }
      case _ =>
    }
  }

  lemma {:induction false} RunKeepsDead(c: Codec, cfg: CacheConfig, steps: seq<Step>)
    ensures DeadStaysDead(cfg, Run(c, cfg, steps))
  {
    hide Apply;
    if steps != [] {
      RunKeepsDead(c, cfg, steps[..|steps| - 1]);
      StepKeepsDead(c, cfg, Run(c, cfg, steps[..|steps| - 1]), steps[|steps| - 1]);
    }
  }

  /** Upstream's answer is served for ever, by re-insertion through hits, exactly when it is positive, its
      TTL is counted down and there is a minimum TTL, or when it is readable at all and each hit renews it:
      because it is negative, or because TTLs are kept. */
  lemma ServedForEverExactly(c: Codec, cfg: CacheConfig, key: CacheKey, response: Message)
    requires c.RoundTrips() && cfg.Valid() && Stored(c, response).Some?
    ensures var (records, ttl) := Stored(c, response).value;
            ServedForEver(c, cfg, key, records, ttl) <==>
            if IsPositive(records) && !cfg.keepTtl then cfg.minTtl > 0 else Lifetime(cfg, ttl) > 0
  {
    hide Codec.RoundTrips, Run, Stored, SomeRunServes, Lifetime;
    var (records, ttl) := Stored(c, response).value;
    var msg := Message(0, NoError, [Question(Name([]), TypeA)], []);
    if IsPositive(records) && !cfg.keepTtl && cfg.minTtl > 0 {
      forall age ensures SomeRunServes(c, cfg, key, records, ttl, age) {
        MinTtlIsNoBound(c, cfg, key, response, msg, age);
      }
    } else if (cfg.keepTtl || !IsPositive(records)) && Lifetime(cfg, ttl) > 0 {
      forall age ensures SomeRunServes(c, cfg, key, records, ttl, age) {
        RenewedEntriesNeverExpire(c, cfg, key, response, msg, age);
      }
    } else {
      NotServedAfter(c, cfg, key, records, ttl);
    }
  }

  lemma NotServedAfter(c: Codec, cfg: CacheConfig, key: CacheKey, records: seq<CacheRecord>, ttl: nat)
    requires if IsPositive(records) && !cfg.keepTtl then cfg.minTtl == 0 else Lifetime(cfg, ttl) == 0
    ensures !SomeRunServes(c, cfg, key, records, ttl, ttl * SECOND)
  {
    hide Run, Lifetime;
    forall steps ensures !ServedAtAge(Run(c, cfg, steps), key, records, ttl, ttl * SECOND) {
      if IsPositive(records) && !cfg.keepTtl {
        NoServiceAfterExpiry(c, cfg, steps, key);
      } else {
        RunKeepsDead(c, cfg, steps);
      }
    }
  }

  /** No undelayed positive answer of least TTL `ttl` is readable once it is `maxTtl` old. */
  ghost predicate AgeWithinMax(c: Codec, cfg: CacheConfig, ttl: nat) {
    forall steps, key ::
      var s := Run(c, cfg, steps);
      var entry := Readable(s.slots, key, s.now);
      entry.Some? && IsPositive(entry.value.records) && key in s.lineages
      && s.lineages[key].minTtl == ttl && s.lineages[key].delay == 0 ==>
        s.now < s.lineages[key].storedAt + cfg.maxTtl * SECOND
  }

  /** The age of answers with least TTL `ttl` stays within the maximum exactly when they are never readable,
      or when TTLs are counted down, there is no minimum and the answers themselves do not outlive the
      maximum: the clamp does nothing for the answers it is meant for. */
  lemma AgeWithinMaxExactly(c: Codec, cfg: CacheConfig, ttl: nat)
    requires c.RoundTrips() && cfg.Valid()
    ensures AgeWithinMax(c, cfg, ttl) <==>
            if cfg.keepTtl then ttl == 0 else cfg.maxTtl == 0 || (cfg.minTtl == 0 && ttl <= cfg.maxTtl)
  {
    hide Codec.RoundTrips, Run, Stored, SomeRunServes, Lifetime;
    if if cfg.keepTtl then ttl == 0 else cfg.maxTtl == 0 || (cfg.minTtl == 0 && ttl <= cfg.maxTtl) {
      BoundedByUpstream(c, cfg, ttl);
    } else {
      var key, owner, age := CacheKey("a", TypeA), Name(["a"]), cfg.maxTtl * SECOND;
      var response := Message(0, NoError, [], [Record(owner, ttl, A(0))]);
      var msg := Message(0, NoError, [Question(owner, TypeA)], []);
      OneAddressStored(c, owner, ttl);
      if cfg.keepTtl {
        KeptLifetime(cfg, ttl);
        RenewedEntriesNeverExpire(c, cfg, key, response, msg, age);
        NotWithinMax(c, cfg, key, [CachedA(0)], ttl, age);
      } else if cfg.minTtl > 0 {
        MinTtlIsNoBound(c, cfg, key, response, msg, age);
        NotWithinMax(c, cfg, key, [CachedA(0)], ttl, age);
      } else {
        OutlivesMax(c, cfg, key, response, msg);
        NotWithinMax(c, cfg, key, [CachedA(0)], ttl, age - 1);
      }
    }
  }

  lemma KeptLifetime(cfg: CacheConfig, ttl: nat)
    requires cfg.keepTtl && ttl > 0
    ensures Lifetime(cfg, ttl) > 0
  {
  }

  lemma OneAddressStored(c: Codec, owner: Name, ttl: nat)
    ensures Stored(c, Message(0, NoError, [], [Record(owner, ttl, A(0))])) == Some(([CachedA(0)], ttl))
  {
    var answer := Record(owner, ttl, A(0));
    assert [answer][..0] == [];
    assert RecordsOf(c, [answer]) == [CachedA(0)];
  }

  lemma BoundedByUpstream(c: Codec, cfg: CacheConfig, ttl: nat)
    requires cfg.Valid()
    requires if cfg.keepTtl then ttl == 0 else cfg.maxTtl == 0 || (cfg.minTtl == 0 && ttl <= cfg.maxTtl)
    ensures AgeWithinMax(c, cfg, ttl)
  {
    hide Run;
    forall steps, key
      ensures var s := Run(c, cfg, steps);
              var entry := Readable(s.slots, key, s.now);
              entry.Some? && IsPositive(entry.value.records) && key in s.lineages
              && s.lineages[key].minTtl == ttl && s.lineages[key].delay == 0 ==>
                s.now < s.lineages[key].storedAt + cfg.maxTtl * SECOND
    {
      if cfg.keepTtl || cfg.maxTtl == 0 {
        RunKeepsDead(c, cfg, steps);
      } else {
        NoServiceAfterExpiry(c, cfg, steps, key);
      }
    }
  }

  lemma NotWithinMax(c: Codec, cfg: CacheConfig, key: CacheKey, records: seq<CacheRecord>, ttl: nat, age: nat)
    requires IsPositive(records) && age + 1 >= cfg.maxTtl * SECOND
    requires SomeRunServes(c, cfg, key, records, ttl, age)
    ensures !AgeWithinMax(c, cfg, ttl)
  {
    hide Run;
    var steps :| ServedAtAge(Run(c, cfg, steps), key, records, ttl, age);
  }

  /** One hit just before the maximum carries an answer that outlives it over the maximum. */
  lemma OutlivesMax(c: Codec, cfg: CacheConfig, key: CacheKey, response: Message, msg: Message)
    requires c.RoundTrips() && !cfg.keepTtl && cfg.Valid() && 0 == cfg.minTtl < cfg.maxTtl && msg.queries != []
    requires Stored(c, response).Some? && IsPositive(Stored(c, response).value.0)
    requires cfg.maxTtl < Stored(c, response).value.1
    ensures var (records, ttl) := Stored(c, response).value;
            SomeRunServes(c, cfg, key, records, ttl, cfg.maxTtl * SECOND - 1)
  {
    hide Codec.RoundTrips, Run, Stored;
    var (records, ttl) := Stored(c, response).value;
    var wait := cfg.maxTtl * SECOND - 1;
    var before := Refreshing(key, response, msg, wait, 1);
    assert TtlAfterRounds(false, records, ttl, wait, 0) == ttl;
    assert TtlAfterRounds(false, records, ttl, wait, 1) >= 1;
    RefreshingKeeps(c, cfg, key, response, msg, wait, 1);
    RunAppend(c, cfg, before, Tick(1));
    assert ServedAtAge(Run(c, cfg, before + [Tick(1)]), key, records, ttl, cfg.maxTtl * SECOND - 1);
  }

  /** No positive entry is readable, in any run, once its upstream answer has run out. */
  ghost predicate ExpiryRespected(c: Codec, cfg: CacheConfig) {
    forall steps, key ::
      var s := Run(c, cfg, steps);
      var entry := Readable(s.slots, key, s.now);
      entry.Some? && IsPositive(entry.value.records) && key in s.lineages ==> s.now < s.lineages[key].GoodUntil()
  }

  /** Upstream expiry is respected exactly when TTLs are counted down and no minimum TTL is configured. */
  lemma ExpiryRespectedExactly(c: Codec, cfg: CacheConfig)
    requires c.RoundTrips() && cfg.Valid()
    ensures ExpiryRespected(c, cfg) <==> !cfg.keepTtl && cfg.minTtl == 0
  {
    hide Codec.RoundTrips, Run;
    if !cfg.keepTtl && cfg.minTtl == 0 {
      forall steps, key
        ensures var s := Run(c, cfg, steps);
                var entry := Readable(s.slots, key, s.now);
                entry.Some? && IsPositive(entry.value.records) && key in s.lineages ==>
                  s.now < s.lineages[key].GoodUntil()
      {
        NoServiceAfterExpiry(c, cfg, steps, key);
      }
    } else {
      var key, owner := CacheKey("a", TypeA), Name(["a"]);
      var response := Message(0, NoError, [], [Record(owner, 1, A(0))]);
      var msg := Message(0, NoError, [Question(owner, TypeA)], []);
      OneAddressStored(c, owner, 1);
      if cfg.keepTtl {
        RenewedEntriesNeverExpire(c, cfg, key, response, msg, SECOND);
      } else {
        MinTtlIsNoBound(c, cfg, key, response, msg, SECOND);
      }
      OutlivesUpstream(c, cfg, key, [CachedA(0)], 1);
    }
  }

  lemma OutlivesUpstream(c: Codec, cfg: CacheConfig, key: CacheKey, records: seq<CacheRecord>, ttl: nat)
    requires IsPositive(records) && SomeRunServes(c, cfg, key, records, ttl, ttl * SECOND)
    ensures !ExpiryRespected(c, cfg)
  {
    hide Run;
    var steps :| ServedAtAge(Run(c, cfg, steps), key, records, ttl, ttl * SECOND);
  }
}
