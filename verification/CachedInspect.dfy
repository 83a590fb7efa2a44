/** Inspect over the cache (internal/probe/inspect.go), and what callers can do to cached reports. */
module CachedInspect {
  import opened Wrappers
  import opened Words
  import opened Inspect
  import opened CacheKeys
  import opened Reports
  import opened InspectCache

  // ---- a returned report is the caller's own --------------------------------------------------

  /** Everything a caller can reach through the entries of a report, overwritten. */
  method Scribble(r: Report, junk: Entry, ledger: uint32)
    modifies r.Owned()
  {
    hide Report.Value, Report.Within;
    if r.instance.live != null {
      assert r.instance.live in Cells([r.instance]);
      r.instance.live.ledger := ledger;
    }
    if r.code != null {
      r.code.entry := junk;
    }
    var data := r.data;
    for i := 0 to data.Length {
      data[i] := junk;
    }
    r.instance := junk;
  }

  /** Whatever a caller writes into the instance, code and data of a hit, the next hit is as before. */
  method HitsAreIsolated(cache: InspectCache, key: string, now: int, later: int, junk: Entry, ledger: uint32)
      returns (second: Report?)
    requires cache.Valid() && cache.clock <= now <= later
    requires key in cache.entries && later < cache.entries[key].expires
    modifies cache
    ensures cache.Valid() && cache.puts == old(cache.puts)
    ensures second != null && second.Value() == old(cache.puts[key].value)
  {
    hide Report.Value, Report.Within, Report.Owned, Aged, LossesAreEarned, Cells;
    var first := cache.Get(key, now);
    if first != null {
      Scribble(first, junk, ledger);
    }
    second := cache.Get(key, later);
  }

  /** The exception: the estimates of a hit are the cached ones, so writing to them changes the cache. */
  method EstimatesAreShared(cache: InspectCache, key: string, cached: Report, now: int, fake: ExtendEstimate)
    requires cache.Valid() && cache.clock <= now
    requires key in cache.entries && now < cache.entries[key].expires && cache.entries[key].result == cached
    requires cached.estimates.Length > 0
    modifies cache, cached.estimates
    ensures key in cache.entries && cache.entries[key].result == cached
    ensures cached.Value().estimates[0] == fake
  {
    hide Report.Within, Aged, LossesAreEarned, Cells, EntryValues, EntryValue, Holding;
    var first := cache.Get(key, now);
    first.estimates[0] := fake;
  }

  // ---- Inspect -----------------------------------------------------------------------------------

  /** The prober and the network at one moment. */
  datatype World = World(p: Prober, rpc: Rpc)

  /** What Inspect without a cache returns in this world. */
  function AnswerIn(w: World, req: InspectRequest): Result<InspectResult, ProbeError> {
    InspectUncached(w.p, w.rpc, req)
  }

  /** The value was the answer at time t to a request that shares the key of this one. */
  predicate EarlierAnswer(world: int -> World, t: int, b: InspectRequest, req: InspectRequest, value: InspectResult) {
    InspectCacheKey(b) == InspectCacheKey(req) && AnswerIn(world(t), b) == Ok(value)
  }

  /** A key shared with b says that b asked the same: neither has a separator in it, or this request is one of
      those that no other question shares its key with. */
  predicate TellsQuestion(b: InspectRequest, req: InspectRequest) {
    && NulFreeIds(b) && NulFreeIds(req)
    && (AsksForOneKeyAtMost(req) || (AllNulFree(b.dataKeys) && AllNulFree(req.dataKeys)))
  }

  /** An earlier answer to a request that the key tells to be the same question is the answer that this request
      would have got then, when both ask for the same estimate. */
  lemma EarlierAnswersCount(world: int -> World, t: int, b: InspectRequest, req: InspectRequest, value: InspectResult)
    requires EarlierAnswer(world, t, b, req, value) && TellsQuestion(b, req)
    ensures SameQuestion(b, req)
    ensures AnswerIn(world(t), req.(estimateExtend := b.estimateExtend)) == Ok(value)
  {
    hide InspectCacheKey, InspectUncached;
    if AsksForOneKeyAtMost(req) {
      ShortRequestsOwnTheirKeys(req);
      assert SameQuestion(req, b);
    } else {
      KeysIdentifyQuestions(b, req);
    }
    ReportsAnswerQuestions(world(t).p, world(t).rpc, b, req.(estimateExtend := b.estimateExtend));
  }

  /** Each report was the answer, when it was put, to a request that was asked and has its key. */
  ghost predicate Sourced(world: int -> World, sources: map<string, InspectRequest>, asked: set<InspectRequest>,
                          puts: map<string, LastPut>)
  {
    forall k | k in puts ::
      && k in sources && sources[k] in asked && InspectCacheKey(sources[k]) == k
      && AnswerIn(world(puts[k].at), sources[k]) == Ok(puts[k].value)
  }

  lemma SourcedHit(world: int -> World, sources: map<string, InspectRequest>, asked: set<InspectRequest>,
                   puts: map<string, LastPut>, req: InspectRequest)
    requires Sourced(world, sources, asked, puts) && InspectCacheKey(req) in puts
    ensures var key := InspectCacheKey(req);
            && key in sources && sources[key] in asked
            && EarlierAnswer(world, puts[key].at, sources[key], req, puts[key].value)
  {
  }

  lemma SourcedMore(world: int -> World, sources: map<string, InspectRequest>, asked: set<InspectRequest>,
                    puts: map<string, LastPut>, req: InspectRequest)
    requires Sourced(world, sources, asked, puts)
    ensures Sourced(world, sources, asked + {req}, puts)
  {
  }

  lemma SourcedPut(world: int -> World, sources: map<string, InspectRequest>, asked: set<InspectRequest>,
                   puts: map<string, LastPut>, req: InspectRequest, answer: LastPut)
    requires Sourced(world, sources, asked, puts) && req in asked
    requires AnswerIn(world(answer.at), req) == Ok(answer.value)
    ensures Sourced(world, sources[InspectCacheKey(req) := req], asked, puts[InspectCacheKey(req) := answer])
  {
    hide InspectCacheKey, AnswerIn;
  }

  /** The key has an entry that has not expired. */
  predicate IsLive(entries: map<string, CacheEntry>, key: string, now: int) {
    key in entries && now < entries[key].expires
  }

  /** Prober.Inspect with its cache, in a world that changes over time. */
  class CachingProber {
    const cache: InspectCache?
    ghost const world: int -> World
    ghost var sources: map<string, InspectRequest>
    ghost var asked: set<InspectRequest>

    ghost predicate Valid()
      reads this, cache, if cache == null then {} else cache.Repr
    {
      cache != null ==> cache.Valid() && Sourced(world, sources, asked, cache.puts) && this !in cache.Repr
    }

    constructor (cache: InspectCache?, ghost world: int -> World)
      requires cache != null ==> cache.Valid() && cache.puts == map[] && cache.Repr == {}
      ensures Valid() && this.cache == cache && this.world == world && asked == {}
    {
      this.cache, this.world, sources, asked := cache, world, map[], {};
    }

    /** For any request. An error is the uncached one. A report is the uncached answer, or the answer given less
        than ttl earlier to a request with the same key: to the same question, where the key tells it, and to the
        same request, where that asked for the same estimate. */
    method Inspect(w: World, req: InspectRequest, now: int, done: int) returns (r: Result<Report, ProbeError>)
      requires Valid() && w == world(done)
      requires now <= done && (cache != null ==> cache.clock <= now)
      modifies this, cache
      ensures Valid() && asked == old(asked) + {req}
      ensures r.Err? ==> AnswerIn(w, req) == Err(r.error)
      ensures cache == null && r.Ok? ==> AnswerIn(w, req) == Ok(r.value.Value())
      ensures cache != null && r.Ok? ==>
                || AnswerIn(w, req) == Ok(r.value.Value())
                || exists t, b :: now - cache.ttl < t <= now && b in old(asked)
                                  && EarlierAnswer(world, t, b, req, r.value.Value())
                                  && (TellsQuestion(b, req) ==> SameQuestion(b, req))
      ensures cache != null && r.Ok? &&
              (forall b | b in old(asked) :: TellsQuestion(b, req) && b.estimateExtend == req.estimateExtend) ==>
                || AnswerIn(w, req) == Ok(r.value.Value())
                || exists t :: now - cache.ttl < t <= now && AnswerIn(world(t), req) == Ok(r.value.Value())
      ensures cache != null && IsLive(old(cache.entries), InspectCacheKey(req), now) ==>
                r.Ok? && cache.puts == old(cache.puts) && r.value.Value() == cache.puts[InspectCacheKey(req)].value
      ensures r.Ok? ==> fresh(r.value.Owned())
      ensures r.Ok? && cache != null ==>
                r.value.Owned() !! cache.Repr && Holds(req, r.value, done) && now <= cache.clock
    {
      hide Report.Within, Report.Owned, Report.Value, Aged, LossesAreEarned, Cells, Holding, AnswerIn;
      hide InspectCacheKey, Sourced, EarlierAnswer, TellsQuestion;
      ghost var before := asked;
      asked := asked + {req};
      if cache == null {
        r := Ask(w, req);
        return;
      }
      SourcedMore(world, sources, before, cache.puts, req);
      var key := InspectCacheKeyLoop(req);
      var hit;
      ghost var t, b;
      hit, t, b := Lookup(key, req, now, before);
      if hit != null {
        if TellsQuestion(b, req) {
          EarlierAnswersCount(world, t, b, req, hit.Value());
        }
        return Ok(hit);
      }
      r := Fill(w, req, key, done);
    }

    /** The cache holds this report's value for the request. */
    ghost predicate Holds(req: InspectRequest, r: Report, now: int)
      reads this, cache, r, r.data, r.code, r.Frame()
    {
      && cache != null
      && var key := InspectCacheKey(req);
         && key in cache.entries && key in cache.puts && cache.puts[key].value == r.Value() && cache.clock <= now
         && (cache.ttl > 0 ==> cache.clock < cache.entries[key].expires)
    }

    /** The cache's answer, and when and to what it was given. */
    method Lookup(key: string, req: InspectRequest, now: int, ghost before: set<InspectRequest>)
        returns (hit: Report?, ghost t: int, ghost b: InspectRequest)
      requires Valid() && key == InspectCacheKey(req) && cache != null && cache.clock <= now
      requires Sourced(world, sources, before, cache.puts)
      modifies cache
      ensures Valid() && cache.clock == now && cache.puts == old(cache.puts)
      ensures hit != null <==> IsLive(old(cache.entries), key, now)
      ensures hit != null ==> fresh(hit.Owned()) && hit.Owned() !! cache.Repr && Holds(req, hit, now)
      ensures hit != null ==>
                now - cache.ttl < t <= now && b in before && EarlierAnswer(world, t, b, req, hit.Value())
    {
      hide Report.Within, Report.Owned, Report.Value, Aged, LossesAreEarned, Cells, Holding, AnswerIn;
      hide InspectCacheKey, Sourced, EarlierAnswer;
      t, b := now, req;
      hit := cache.Get(key, now);
      if hit != null {
        SourcedHit(world, sources, before, cache.puts, req);
        t, b := cache.puts[key].at, sources[key];
      }
    }

    /** inspectUncached, with its report on the heap. */
    static method Ask(w: World, req: InspectRequest) returns (r: Result<Report, ProbeError>)
      ensures r.Err? ==> AnswerIn(w, req) == Err(r.error)
      ensures r.Ok? ==> AnswerIn(w, req) == Ok(r.value.Value()) && fresh(r.value.Owned())
    {
      hide InspectUncached, Report.Value, Report.Owned;
      var answer := InspectUncached(w.p, w.rpc, req);
      if answer.Err? {
        return Err(answer.error);
      }
      var report := NewReport(answer.value);
      return Ok(report);
    }

    /** A miss: ask, and keep a copy of the answer. */
    method Fill(w: World, req: InspectRequest, key: string, done: int) returns (r: Result<Report, ProbeError>)
      requires Valid() && w == world(done) && key == InspectCacheKey(req)
      requires cache != null && cache.clock <= done && req in asked
      modifies this, cache
      ensures Valid() && asked == old(asked)
      ensures r.Err? ==> AnswerIn(w, req) == Err(r.error)
      ensures r.Ok? ==> AnswerIn(w, req) == Ok(r.value.Value()) && fresh(r.value.Owned())
      ensures r.Ok? ==> r.value.Owned() !! cache.Repr && Holds(req, r.value, done) && cache.clock == done
    {
      hide Report.Within, Report.Owned, Report.Value, Aged, LossesAreEarned, Cells, MadeRoom, Holding;
      hide InspectUncached, InspectCacheKey, Sourced;
      var answer := InspectUncached(w.p, w.rpc, req);
      if answer.Err? {
        return Err(answer.error);
      }
      SourcedPut(world, sources, asked, cache.puts, req, LastPut(answer.value, done));
      sources := sources[key := req];
      var report := NewReport(answer.value);
      KeyAsOneList(req);
      EstimatesAreNotOwned(report);
      ghost var owned, before := report.Owned(), cache.Repr;
      cache.Put(key, report, done);
      forall o | o in owned
        ensures o !in cache.Repr
      {
        assert o !in before && o !in cache.Repr - before - {report.estimates};
      }
      EntryAge(cache, key);
      return Ok(report);
    }
  }

  // ---- an answer is the caller's own -------------------------------------------------------------

  /** Whatever a caller writes into the instance, code and data of any answer, a hit or the report that a miss has
      just put into the cache, the next hit has the value of that answer; and it is a hit while the entry lives. */
  method AnswersAreIsolated(prober: CachingProber, w: World, req: InspectRequest, now: int, done: int, later: int,
                            junk: Entry, ledger: uint32)
      returns (first: Result<Report, ProbeError>, ghost value: Option<InspectResult>, second: Report?)
    requires prober.Valid() && prober.cache != null && w == prober.world(done)
    requires prober.cache.clock <= now <= done <= later
    modifies prober, prober.cache
    ensures prober.Valid()
    ensures first.Ok? <==> value.Some?
    ensures second != null ==> value.Some? && second.Value() == value.value
    ensures first.Ok? ==> InspectCacheKey(req) in prober.cache.puts
    ensures first.Ok? && later < prober.cache.puts[InspectCacheKey(req)].at + prober.cache.ttl ==> second != null
  {
    hide Report.Value, Report.Within, Report.Owned, Aged, LossesAreEarned, Cells, Holding, Sourced, InspectCacheKey;
    hide AnswerIn;
    value, second := None, null;
    first := prober.Inspect(w, req, now, done);
    if first.Ok? {
      value := Some(first.value.Value());
      EntryAge(prober.cache, InspectCacheKey(req));
      Scribble(first.value, junk, ledger);
      var key := InspectCacheKeyLoop(req);
      second := prober.cache.Get(key, later);
    }
  }

  lemma EntryAge(cache: InspectCache, key: string)
    requires cache.Valid() && key in cache.entries
    ensures key in cache.puts && cache.entries[key].expires == cache.puts[key].at + cache.ttl
  {
  }

  /** Two requests that share a key share answers: whatever the second one asks, it gets the report of the first
      while that lives. */
  method SharedKeysShareAnswers(prober: CachingProber, w: World, a: InspectRequest, b: InspectRequest,
                                done: int, later: int)
      returns (first: Result<Report, ProbeError>, second: Result<Report, ProbeError>,
               ghost value: Option<InspectResult>, ghost expires: int)
    requires prober.Valid() && prober.cache != null && w == prober.world(done) == prober.world(later)
    requires prober.cache.clock <= done <= later && InspectCacheKey(a) == InspectCacheKey(b)
    modifies prober, prober.cache
    ensures first.Ok? <==> value.Some?
    ensures first.Ok? && prober.cache.ttl > 0 && later == done ==> later < expires
    ensures first.Ok? && later < expires ==> second.Ok? && second.value.Value() == value.value
  {
    hide Report.Value, Report.Within, Report.Owned, Aged, LossesAreEarned, Cells, Holding, Sourced, AnswerIn;
    hide InspectCacheKey, EarlierAnswer, TellsQuestion;
    value, second, expires := None, Err(ContextDone), later;
    first := prober.Inspect(w, a, done, done);
    if first.Ok? {
      value := Some(first.value.Value());
      expires := prober.cache.entries[InspectCacheKey(a)].expires;
      second := prober.Inspect(w, b, later, later);
    }
  }
}
