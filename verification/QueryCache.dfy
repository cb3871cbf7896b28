/** The query cache: per-entry lifetimes, lookup, and write-back. Times are in nanoseconds. */
module QueryCache {
  import opened Wrappers
  import opened Dns
  import opened Query
  import opened CacheRecords

  const SECOND: nat := 1_000_000_000

  datatype CacheConfig = CacheConfig(minTtl: nat, maxTtl: nat, keepTtl: bool)
  {
    /** Clamping to an empty range aborts, so bounds that are used must be ordered. */
    predicate Valid() {
      keepTtl || minTtl <= maxTtl
    }
  }

  datatype CacheEntry = CacheEntry(records: seq<CacheRecord>, createdAt: nat, ttl: nat)
  {
    function ActionName(): string {
      if records == [] then "forward-cache-fail"
      else match records[0]
        case NxDomainMark => "forward-cache-nxdomain"
        case NoDataMark => "forward-cache-nodata"
        case _ => "forward-cache"
    }

    /** Whole seconds left at `now`. */
    function RemainingTtl(keepTtl: bool, now: nat): nat {
      if keepTtl then ttl
      else
        var expiresAt := createdAt + ttl * SECOND;
        if now >= expiresAt then 0 else (expiresAt - now) / SECOND
    }
  }

  /** An entry and the time from which reads no longer see it. */
  datatype Slot = Slot(entry: CacheEntry, deadline: nat)

  type Slots = map<CacheKey, Slot>

  /** How long an entry with this TTL stays readable. */
  function Lifetime(cfg: CacheConfig, ttl: nat): nat {
    if cfg.keepTtl then ttl * SECOND
    else (if ttl < cfg.minTtl then cfg.minTtl else if ttl > cfg.maxTtl then cfg.maxTtl else ttl) * SECOND
  }

  /** A fresh insertion restarts the lifetime. */
  function PutInto(cfg: CacheConfig, slots: Slots, key: CacheKey, records: seq<CacheRecord>, ttl: nat,
                   now: nat): Slots {
    slots[key := Slot(CacheEntry(records, now, ttl), now + Lifetime(cfg, ttl))]
  }

  /** Reads exclude entries whose deadline has come. */
  function Readable(slots: Slots, key: CacheKey, now: nat): Option<CacheEntry> {
    if key in slots && now < slots[key].deadline then Some(slots[key].entry) else None
  }

  /** Whether an entry with this TTL is still readable (`readable`) so long after it was written: a kept TTL
      counts as it is, any other as the bound it lies beyond. */
  predicate ReadableInTime(cfg: CacheConfig, ttl: nat, elapsed: nat, readable: bool) {
    && (cfg.keepTtl || cfg.minTtl <= ttl <= cfg.maxTtl ==> (readable <==> elapsed < ttl * SECOND))
    && (!cfg.keepTtl && ttl < cfg.minTtl ==> (readable <==> elapsed < cfg.minTtl * SECOND))
    && (!cfg.keepTtl && ttl > cfg.maxTtl ==> (readable <==> elapsed < cfg.maxTtl * SECOND))
  }

  /** The TTL an entry is served with so long after it was written: whole seconds left, never below zero. */
  predicate ServedTtl(cfg: CacheConfig, ttl: nat, elapsed: nat, served: nat) {
    if cfg.keepTtl then served == ttl
    else if elapsed >= ttl * SECOND then served == 0
    else served * SECOND <= ttl * SECOND - elapsed < (served + 1) * SECOND
  }

  /** What a hit answers: the rebuilt records, or SERVFAIL when they no longer parse. */
  function HitResponse(c: Codec, cfg: CacheConfig, msg: Message, entry: CacheEntry, now: nat): Message {
    var rebuilt := Rebuilt(c, msg, entry.records, entry.RemainingTtl(cfg.keepTtl, now));
    if rebuilt.Some? then rebuilt.value else ServFailFor(msg)
  }

  /** The store after writing `response` back under `key`. */
  function WrittenBack(c: Codec, cfg: CacheConfig, slots: Slots, key: CacheKey, response: Message, now: nat): Slots {
    var stored := Stored(c, response);
    if stored.Some? then PutInto(cfg, slots, key, stored.value.0, stored.value.1, now) else slots
  }

  predicate IsForward(action: string) {
    "forward" <= action
  }

  class DnsCache {
    const cfg: CacheConfig
    var inner: Slots

    constructor (cfg: CacheConfig)
      ensures this.cfg == cfg && inner == map[]
    {
      this.cfg := cfg;
      inner := map[];
    }

    method GetCached(key: CacheKey, now: nat) returns (r: Option<CacheEntry>)
      ensures r == Readable(inner, key, now)
    {
      if key in inner && now < inner[key].deadline {
        r := Some(inner[key].entry);
      } else {
        r := None;
      }
    }

    method Put(key: CacheKey, records: seq<CacheRecord>, ttl: nat, now: nat)
      requires cfg.Valid()
      modifies this
      ensures inner == PutInto(cfg, old(inner), key, records, ttl, now)
      ensures forall t :: t >= now ==>
                            var entry := Readable(inner, key, t);
                            && ReadableInTime(cfg, ttl, t - now, entry.Some?)
                            && (entry.Some? ==> entry.value == CacheEntry(records, now, ttl))
      ensures forall other, t :: other != key ==> Readable(inner, other, t) == Readable(old(inner), other, t)
    {
      var entry := CacheEntry(records, now, ttl);
      inner := inner[key := Slot(entry, now + Lifetime(cfg, ttl))];
    }
  }

  /** Stores positive records, or a mark for NXDOMAIN and for an empty NOERROR answer. */
  method CacheUpstreamResponse(c: Codec, cache: DnsCache, key: CacheKey, response: Message, now: nat)
    requires cache.cfg.Valid()
    modifies cache
    ensures cache.inner == WrittenBack(c, cache.cfg, old(cache.inner), key, response, now)
  {
    var records := ExtractCacheRecords(c, response);
    if records.Some? {
      cache.Put(key, records.value, MinTtl(response.answers), now);
      return;
    }
    var mark := match response.rcode
      case NXDomain => Some(NxDomainMark)
      case NoError => Some(NoDataMark)
      case _ => None;
    if mark.Some? {
      cache.Put(key, [mark.value], MinTtl(response.answers), now);
    }
  }

  /** The cache stage. */
  class Cache {
    const codec: Codec
    const cache: DnsCache
    const skipBalanceOnHit: bool

    constructor (codec: Codec, cache: DnsCache, skipBalanceOnHit: bool)
      ensures this.codec == codec && this.cache == cache && this.skipBalanceOnHit == skipBalanceOnHit
    {
      this.codec, this.cache, this.skipBalanceOnHit := codec, cache, skipBalanceOnHit;
    }

    /** Answers from the cache when an entry is readable; never touches the store. */
    method Lookup(ctx: QueryContext, now: nat) returns (respond: bool)
      modifies ctx`response, ctx`action, ctx`skipBalance
      ensures respond <==> !ctx.skipCache && Readable(cache.inner, ctx.key, now).Some?
      ensures respond ==>
                var entry := Readable(cache.inner, ctx.key, now).value;
                && ctx.response == Some(HitResponse(codec, cache.cfg, ctx.msg, entry, now))
                && ctx.action == entry.ActionName() && ctx.skipBalance == skipBalanceOnHit
      ensures !respond ==> unchanged(ctx)
    {
      if ctx.skipCache {
        return false;
      }
      var entry := cache.GetCached(ctx.key, now);
      match entry {
        case None => respond := false;
        case Some(entry) =>
          ctx.skipBalance := skipBalanceOnHit;
          var ttl := entry.RemainingTtl(cache.cfg.keepTtl, now);
          var resp := BuildResponse(codec, ctx.msg, entry.records, ttl);
          ctx.response := if resp.Some? then resp else Some(ServFailFor(ctx.msg));
          ctx.action := entry.ActionName();
          respond := true;
      }
    }

    /** Stores the response of every action that starts with "forward"; a cache hit is one of them. */
    method WriteBack(ctx: QueryContext, now: nat)
      requires cache.cfg.Valid()
      modifies cache
      ensures cache.inner ==
              if !ctx.skipCache && ctx.response.Some? && IsForward(ctx.action)
              then WrittenBack(codec, cache.cfg, old(cache.inner), ctx.key, ctx.response.value, now)
              else old(cache.inner)
    {
      if ctx.skipCache {
        return;
      }
      if ctx.response.Some? {
        if IsForward(ctx.action) {
          CacheUpstreamResponse(codec, cache, ctx.key, ctx.response.value, now);
        }
      }
    }
  }

  /** How long a written entry is read, and with which TTL. */
  lemma PutIsReadInTime(cfg: CacheConfig, slots: Slots, key: CacheKey, records: seq<CacheRecord>, ttl: nat,
                        at: nat, now: nat)
    requires cfg.Valid() && at <= now
    ensures var entry := Readable(PutInto(cfg, slots, key, records, ttl, at), key, now);
            && ReadableInTime(cfg, ttl, now - at, entry.Some?)
            && (entry.Some? ==> entry.value == CacheEntry(records, at, ttl)
                                && ServedTtl(cfg, ttl, now - at, entry.value.RemainingTtl(cfg.keepTtl, now)))
  {
  }

  /** Every cache hit counts as a forward, so it is written back. */
  lemma HitsAreForwards(entry: CacheEntry)
    ensures IsForward(entry.ActionName())
  {
  }

  /** The action of a hit tells what upstream's answer left: its records, its NXDOMAIN, or that it was empty. */
  lemma ActionTellsWhatIsKept(c: Codec, response: Message, at: nat)
    requires Stored(c, response).Some?
    ensures var (records, ttl) := Stored(c, response).value;
            CacheEntry(records, at, ttl).ActionName() ==
              if HasCacheable(response.answers) then "forward-cache"
              else if response.rcode == NXDomain then "forward-cache-nxdomain" else "forward-cache-nodata"
  {
    RecordsExactly(c, response.answers);
    RecordsOfShape(c, response.answers);
  }
}
