/** The inspect cache (internal/probe/inspect_cache.go): get, put and the eviction. Each of get and put is one
    locked region. */
module InspectCache {
  import opened Inspect
  import opened Reports

  const DEFAULT_MAX: nat := 256

  datatype CacheEntry = CacheEntry(result: Report, expires: int)

  /** What was last put under a key, and when. */
  datatype LastPut = LastPut(value: InspectResult, at: int)

  function Live(entries: map<string, CacheEntry>, now: int): map<string, CacheEntry> {
    map k | k in entries && now < entries[k].expires :: entries[k]
  }

  /** k expires no later than any other entry. */
  predicate ExpiresFirst(entries: map<string, CacheEntry>, k: string) {
    k in entries && forall j | j in entries :: entries[k].expires <= entries[j].expires
  }

  /** What making room may leave: with no room, the live entries; if that is no room either, all of those but one
      that expires first. */
  predicate MadeRoom(before: map<string, CacheEntry>, after: map<string, CacheEntry>, max: nat, now: int) {
    if |before| < max then after == before
    else
      var live := Live(before, now);
      if |live| < max then after == live
      else exists k | k in live :: ExpiresFirst(live, k) && after == live - {k}
  }

  // ---- what the cache keeps over every run ---------------------------------------------------

  /** Entries are dated from their last put, and a live entry proves that every later put is still here. */
  predicate Aged(entries: map<string, CacheEntry>, puts: map<string, LastPut>, ttl: int, now: int) {
    && (forall k | k in puts :: puts[k].at <= now)
    && (forall k | k in entries :: k in puts && entries[k].expires == puts[k].at + ttl)
    && (forall k, l | k in entries && now < entries[k].expires && l in puts && puts[k].at < puts[l].at :: l in entries)
  }

  /** The other keys put no earlier than k. */
  function PutSince(puts: map<string, LastPut>, k: string): set<string>
    requires k in puts
  {
    set l | l in puts && l != k && puts[l].at >= puts[k].at
  }

  /** A key that is lost before its time was pushed out by at least max - 1 others. */
  predicate LossesAreEarned(entries: map<string, CacheEntry>, puts: map<string, LastPut>, ttl: int, max: nat, now: int)
  {
    forall k | k in puts && now < puts[k].at + ttl && k !in entries :: |PutSince(puts, k)| >= max - 1
  }

  lemma SmallerSet<T>(a: set<T>, b: set<T>)
    requires a <= b
    ensures |a| <= |b|
  {
    if a != b {
      assert b == a + (b - a);
    }
  }

  lemma RoomIsMade(before: map<string, CacheEntry>, after: map<string, CacheEntry>, max: nat, now: int)
    requires max > 0 && |before| <= max && MadeRoom(before, after, max, now)
    ensures |after| < max
    ensures forall k | k in after :: k in before && after[k] == before[k]
  {
    var live := Live(before, now);
    assert live.Keys <= before.Keys;
    SmallerSet(live.Keys, before.Keys);
    assert |live| == |live.Keys| && |before| == |before.Keys|;
    if |before| >= max && |live| >= max {
      var k :| k in live && ExpiresFirst(live, k) && after == live - {k};
      assert after.Keys == live.Keys - {k};
      assert |after| == |after.Keys|;
    }
  }

  lemma MakingRoomKeepsAge(before: map<string, CacheEntry>, after: map<string, CacheEntry>, puts: map<string, LastPut>,
                           ttl: int, max: nat, now: int)
    requires max > 0 && |before| <= max && MadeRoom(before, after, max, now) && Aged(before, puts, ttl, now)
    ensures Aged(after, puts, ttl, now) && |after| < max
    ensures forall k | k in after :: k in before && after[k] == before[k]
  {
    RoomIsMade(before, after, max, now);
    forall k, l | k in after && now < after[k].expires && l in puts && puts[k].at < puts[l].at
      ensures l in after
    {
      assert l in before && before[l].expires == puts[l].at + ttl;
      assert k in before && before[k].expires == puts[k].at + ttl;
    }
  }

  lemma MakingRoomEarnsLosses(before: map<string, CacheEntry>, after: map<string, CacheEntry>,
                              puts: map<string, LastPut>, ttl: int, max: nat, now: int)
    requires max > 0 && |before| <= max && MadeRoom(before, after, max, now) && Aged(before, puts, ttl, now)
    requires LossesAreEarned(before, puts, ttl, max, now)
    ensures LossesAreEarned(after, puts, ttl, max, now)
  {
    var live := Live(before, now);
    forall k | k in puts && now < puts[k].at + ttl && k !in after && k in before
      ensures |PutSince(puts, k)| >= max - 1
    {
      assert k in live;
      var others := live.Keys - {k};
      assert |live| == |live.Keys| == |others| + 1;
      assert others <= PutSince(puts, k);
      SmallerSet(others, PutSince(puts, k));
    }
  }

  lemma PuttingKeepsAge(entries: map<string, CacheEntry>, puts: map<string, LastPut>, ttl: int, max: nat, now: int,
                        key: string, entry: CacheEntry, value: InspectResult)
    requires Aged(entries, puts, ttl, now) && LossesAreEarned(entries, puts, ttl, max, now)
    requires entry.expires == now + ttl
    ensures Aged(entries[key := entry], puts[key := LastPut(value, now)], ttl, now)
    ensures LossesAreEarned(entries[key := entry], puts[key := LastPut(value, now)], ttl, max, now)
  {
    var puts' := puts[key := LastPut(value, now)];
    forall k | k in puts' && now < puts'[k].at + ttl && k !in entries[key := entry]
      ensures |PutSince(puts', k)| >= max - 1
    {
      assert PutSince(puts, k) <= PutSince(puts', k);
      SmallerSet(PutSince(puts, k), PutSince(puts', k));
    }
  }

  /** The bound is reached: storing a key again in a full cache makes room first, though none is needed, and so
      pushes out the entry that expires first, when only the max - 1 others were put since. */
  lemma OverwritingPushesOut(entries: map<string, CacheEntry>, puts: map<string, LastPut>, ttl: int, max: nat, now: int,
                             key: string, entry: CacheEntry, value: InspectResult, k: string)
    requires max > 0 && |entries| == max && Live(entries, now) == entries
    requires Aged(entries, puts, ttl, now) && puts.Keys == entries.Keys
    requires key in entries && k != key && ExpiresFirst(entries, k)
    ensures MadeRoom(entries, entries - {k}, max, now)
    ensures k !in (entries - {k})[key := entry] && now < puts[k].at + ttl
    ensures |PutSince(puts[key := LastPut(value, now)], k)| == max - 1
  {
    assert k in Live(entries, now);
    var puts' := puts[key := LastPut(value, now)];
    assert PutSince(puts', k) == entries.Keys - {k};
    assert |entries.Keys - {k}| == |entries.Keys| - 1;
  }

  lemma TimeKeepsAge(entries: map<string, CacheEntry>, puts: map<string, LastPut>, ttl: int, max: nat, now: int,
                     later: int)
    requires Aged(entries, puts, ttl, now) && LossesAreEarned(entries, puts, ttl, max, now) && now <= later
    ensures Aged(entries, puts, ttl, later) && LossesAreEarned(entries, puts, ttl, max, later)
  {
  }

  lemma ExpiryKeepsAge(entries: map<string, CacheEntry>, puts: map<string, LastPut>, ttl: int, max: nat, now: int,
                       key: string)
    requires Aged(entries, puts, ttl, now) && LossesAreEarned(entries, puts, ttl, max, now)
    requires key in entries && entries[key].expires <= now
    ensures Aged(entries - {key}, puts, ttl, now) && LossesAreEarned(entries - {key}, puts, ttl, max, now)
  {
  }

  lemma Dated(entries: map<string, CacheEntry>, puts: map<string, LastPut>, ttl: int, now: int, key: string)
    requires Aged(entries, puts, ttl, now) && key in entries
    ensures key in puts && entries[key].expires == puts[key].at + ttl && puts[key].at <= now
  {
  }

  lemma FewerEntries(entries: map<string, CacheEntry>, key: string)
    ensures |entries - {key}| <= |entries|
  {
    assert (entries - {key}).Keys == entries.Keys - {key};
    SmallerSet((entries - {key}).Keys, entries.Keys);
  }

  lemma OneMoreEntry(entries: map<string, CacheEntry>, key: string, entry: CacheEntry)
    ensures |entries[key := entry]| <= |entries| + 1
  {
    assert entries[key := entry].Keys == entries.Keys + {key};
    assert |entries.Keys + {key}| <= |entries.Keys| + 1;
  }

  // ---- the reports it holds ---------------------------------------------------------------------

  /** Each entry's report lives in repr and has the value last put under its key. */
  ghost predicate Holding(entries: map<string, CacheEntry>, puts: map<string, LastPut>, repr: set<object>)
    reads repr
  {
    forall k | k in entries ::
      && k in puts && entries[k].result in repr
      && entries[k].result.Within(repr) && entries[k].result.Value() == puts[k].value
  }

  lemma HoldingFewer(entries: map<string, CacheEntry>, fewer: map<string, CacheEntry>, puts: map<string, LastPut>,
                     repr: set<object>)
    requires Holding(entries, puts, repr)
    requires forall k | k in fewer :: k in entries && fewer[k] == entries[k]
    ensures Holding(fewer, puts, repr)
  {
  }

  lemma HoldingMore(entries: map<string, CacheEntry>, puts: map<string, LastPut>, repr: set<object>, more: set<object>,
                    key: string, entry: CacheEntry, at: int)
    requires Holding(entries, puts, repr) && repr <= more
    requires entry.result in more && entry.result.Within(more)
    ensures Holding(entries[key := entry], puts[key := LastPut(entry.result.Value(), at)], more)
  {
  }

  lemma HoldsLastPut(entries: map<string, CacheEntry>, puts: map<string, LastPut>, repr: set<object>, key: string)
    requires Holding(entries, puts, repr) && key in entries
    ensures key in puts && entries[key].result in repr && entries[key].result.Within(repr)
    ensures entries[key].result.Value() == puts[key].value
  {
  }

  // ---- the cache -------------------------------------------------------------------------------

  class InspectCache {
    const ttl: int
    const max: nat
    var entries: map<string, CacheEntry>
    ghost var puts: map<string, LastPut>
    ghost var clock: int
    ghost var Repr: set<object>

    /** Never more than max entries; each holds the value last put under its key, in objects of the cache's own
        or shared with it; and the run so far kept the ages. */
    ghost predicate Valid()
      reads this, Repr
    {
      && max > 0 && |entries| <= max && "" !in entries
      && this !in Repr
      && Aged(entries, puts, ttl, clock) && LossesAreEarned(entries, puts, ttl, max, clock)
      && Holding(entries, puts, Repr)
    }

    constructor (ttl: int, max: int, now: int)
      ensures Valid() && this.ttl == ttl && this.max == (if max <= 0 then 256 else max)
      ensures entries == map[] && puts == map[] && clock == now && Repr == {}
    {
      this.ttl := ttl;
      this.max := if max <= 0 then DEFAULT_MAX else max;
      entries, puts, clock, Repr := map[], map[], now, {};
    }

    /** A hit: the value last put under the key, put less than ttl ago, in a report of its own. */
    method Get(key: string, now: int) returns (r: Report?)
      requires Valid() && now >= clock
      modifies this
      ensures Valid() && clock == now && puts == old(puts) && Repr == old(Repr)
      ensures r != null <==> key in old(entries) && now < old(entries)[key].expires
      ensures r != null ==> key in old(entries) && r.estimates == old(entries)[key].result.estimates
      ensures r != null ==> key in puts && r.Value() == puts[key].value && 0 <= now - puts[key].at < ttl
      ensures r != null ==> fresh(r.Owned())
      ensures entries == if key in old(entries) && r == null then old(entries) - {key} else old(entries)
    {
      hide Aged, LossesAreEarned, Holding, Report.Owned, Report.Value, Report.Within, EntryValue, EntryValues, Cells;
      r := null;
      TimeKeepsAge(entries, puts, ttl, max, clock, now);
      clock := now;
      if key !in entries {
        return;
      }
      Dated(entries, puts, ttl, now, key);
      if !(now < entries[key].expires) {
        ExpiryKeepsAge(entries, puts, ttl, max, now, key);
        FewerEntries(entries, key);
        entries := entries - {key};
        HoldingFewer(old(entries), entries, puts, Repr);
        return;
      }
      HoldsLastPut(entries, puts, Repr, key);
      r := entries[key].result.Clone();
    }

    /** evictLocked */
    method Evict(now: int)
      requires "" !in entries && max > 0
      modifies this`entries
      ensures MadeRoom(old(entries), entries, max, now)
    {
      if |entries| < max {
        return;
      }
      DropExpired(now);
      if |entries| < max {
        return;
      }
      var oldest := "";
      var todo := entries.Keys;
      while todo != {}
        invariant todo <= entries.Keys
        invariant oldest == "" ==> todo == entries.Keys
        invariant oldest != "" ==> oldest in entries
        invariant oldest != "" ==> forall j | j in entries.Keys - todo :: entries[oldest].expires <= entries[j].expires
      {
        var key :| key in todo;
        todo := todo - {key};
        if oldest == "" || entries[key].expires < entries[oldest].expires {
          oldest := key;
        }
      }
      assert oldest != "" by {
        assert |entries.Keys| == |entries|;
      }
      assert ExpiresFirst(entries, oldest);
      entries := entries - {oldest};
    }

    /** The first loop of evictLocked. */
    method DropExpired(now: int)
      modifies this`entries
      ensures entries == Live(old(entries), now)
    {
      var todo := entries.Keys;
      while todo != {}
        invariant todo <= entries.Keys <= old(entries).Keys
        invariant forall k | k in entries :: entries[k] == old(entries)[k] && (k in todo || now < entries[k].expires)
        invariant forall k | k in old(entries) && now < old(entries)[k].expires :: k in entries
      {
        var key :| key in todo;
        todo := todo - {key};
        if !(now < entries[key].expires) {
          entries := entries - {key};
        }
      }
    }

    /** Stores a copy of the report, making room first. */
    method Put(key: string, result: Report, now: int)
      requires Valid() && now >= clock && key != ""
      modifies this
      ensures Valid() && clock == now && puts == old(puts)[key := LastPut(old(result.Value()), now)]
      ensures key in entries
      ensures exists kept :: MadeRoom(old(entries), kept, max, now) && entries == kept[key := entries[key]]
      ensures fresh(Repr - old(Repr) - {result.estimates})
      ensures result.Value() == old(result.Value()) && result.Owned() == old(result.Owned())
    {
      hide Aged, LossesAreEarned, MadeRoom, Holding, Report.Owned, Report.Within, Cells, EntryValues;
      NotPartOf(result);
      MakeRoom(now);
      ghost var kept := entries;
      assert result.Value() == old(result.Value()) && result.Owned() == old(result.Owned());
      CopyIn(key, result, now);
      assert entries == kept[key := entries[key]];
    }

    /** The rest of put: the copy, and the assignment. */
    method CopyIn(key: string, result: Report, now: int)
      requires max > 0 && |entries| < max && "" !in entries && key != "" && now == clock
      requires this !in Repr && this !in result.Owned() && result.estimates as object != this
      requires Aged(entries, puts, ttl, clock) && LossesAreEarned(entries, puts, ttl, max, clock)
      requires Holding(entries, puts, Repr)
      modifies this
      ensures Valid() && clock == now
      ensures key in entries && entries == old(entries)[key := entries[key]]
      ensures puts == old(puts)[key := LastPut(old(result.Value()), now)]
      ensures fresh(Repr - old(Repr) - {result.estimates})
      ensures result.Value() == old(result.Value()) && result.Owned() == old(result.Owned())
    {
      hide Aged, LossesAreEarned, Holding, Report.Owned, Report.Within, Cells, EntryValues;
      var clone := result.Clone();
      NotPartOf(clone);
      Store(key, clone, now);
    }

    /** put up to the copy: the eviction, and what it keeps. */
    method MakeRoom(now: int)
      requires Valid() && now >= clock
      modifies this
      ensures MadeRoom(old(entries), entries, max, now) && |entries| < max && "" !in entries
      ensures clock == now && puts == old(puts) && Repr == old(Repr)
      ensures Aged(entries, puts, ttl, now) && LossesAreEarned(entries, puts, ttl, max, now)
      ensures Holding(entries, puts, Repr)
    {
      hide Aged, LossesAreEarned, MadeRoom, Holding;
      TimeKeepsAge(entries, puts, ttl, max, clock, now);
      clock := now;
      Evict(now);
      MakingRoomKeepsAge(old(entries), entries, puts, ttl, max, now);
      MakingRoomEarnsLosses(old(entries), entries, puts, ttl, max, now);
      HoldingFewer(old(entries), entries, puts, Repr);
    }

    /** The cache is no part of a report. */
    lemma NotPartOf(r: Report)
      ensures this !in r.Owned() && r.estimates as object != this
    {
    }

    /** The assignment at the end of put. */
    method Store(key: string, clone: Report, now: int)
      requires max > 0 && |entries| < max && "" !in entries && key != "" && now == clock
      requires this !in Repr && this !in clone.Owned() && clone.estimates as object != this
      requires Aged(entries, puts, ttl, clock) && LossesAreEarned(entries, puts, ttl, max, clock)
      requires Holding(entries, puts, Repr)
      modifies this
      ensures Valid() && clock == now
      ensures entries == old(entries)[key := CacheEntry(clone, now + ttl)]
      ensures puts == old(puts)[key := LastPut(old(clone.Value()), now)]
      ensures Repr == old(Repr) + old(clone.Owned()) + {clone.estimates}
    {
      hide Aged, LossesAreEarned, Holding, Report.Owned, Report.Value, Report.Within, Cells;
      var entry := CacheEntry(clone, now + ttl);
      ghost var more := Repr + clone.Owned() + {clone.estimates};
      PuttingKeepsAge(entries, puts, ttl, max, clock, key, entry, clone.Value());
      OwnedIsWithin(clone, more);
      HoldingMore(entries, puts, Repr, more, key, entry, clock);
      OneMoreEntry(entries, key, entry);
      puts := puts[key := LastPut(clone.Value(), now)];
      entries := entries[key := entry];
      Repr := more;
    }
  }

  method StoreTwo(report: Report, ttl: int) returns (cache: InspectCache)
    ensures fresh(cache) && cache.Valid() && cache.max == 2 && cache.ttl == ttl && cache.clock == 1
    ensures cache.puts.Keys == {"a", "b"} && cache.puts["a"].at == 0 && cache.puts["b"].at == 1
    ensures cache.entries.Keys == {"a", "b"}
  {
    hide Report.Value, Report.Within, Report.Owned, Aged, LossesAreEarned, MadeRoom, Cells, Holding, PutSince;
    cache := new InspectCache(ttl, 2, 0);
    ghost var none := cache.entries;
    cache.Put("a", report, 0);
    RoomEnough(none, cache.entries, "a", 2, 0);
    ghost var one := cache.entries;
    cache.Put("b", report, 1);
    RoomEnough(one, cache.entries, "b", 2, 1);
  }

  /** So it happens: with room for two, a key is lost while it is live though only one other was put since. */
  method OverwritingLosesALiveKey(report: Report, ttl: int) returns (cache: InspectCache)
    requires ttl > 2
    ensures cache.Valid() && cache.max == 2 && cache.ttl == ttl && cache.clock == 2
    ensures cache.puts.Keys == {"a", "b"} && cache.puts["a"].at == 0
    ensures "a" !in cache.entries
  {
    hide Report.Value, Report.Within, Report.Owned, Aged, LossesAreEarned, MadeRoom, Cells, Holding, PutSince;
    cache := StoreTwo(report, ttl);
    ghost var two := cache.entries;
    Dated(two, cache.puts, ttl, 1, "a");
    Dated(two, cache.puts, ttl, 1, "b");
    cache.Put("b", report, 2);
    TheFirstGoes(two, cache.entries, ttl);
  }

  lemma RoomEnough(before: map<string, CacheEntry>, after: map<string, CacheEntry>, key: string, max: nat, now: int)
    requires before.Keys <= {"a"} && key in after && max == 2
    requires exists kept :: MadeRoom(before, kept, max, now) && after == kept[key := after[key]]
    ensures after.Keys == before.Keys + {key}
  {
    SmallerSet(before.Keys, {"a"});
    assert |before| == |before.Keys|;
  }

  lemma TheFirstGoes(before: map<string, CacheEntry>, after: map<string, CacheEntry>, ttl: int)
    requires ttl > 2 && before.Keys == {"a", "b"} && before["a"].expires == ttl && before["b"].expires == 1 + ttl
    requires "b" in after && exists kept :: MadeRoom(before, kept, 2, 2) && after == kept["b" := after["b"]]
    ensures "a" !in after
  {
    assert |before| == |before.Keys|;
    assert Live(before, 2) == before;
    assert "a" in before && !ExpiresFirst(before, "b");
  }
}
