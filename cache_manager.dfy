/**
 * The cache layer (CacheManager.h): three LRU caches of record entries
 * (drivers, vehicles, trips), an LRU cache of sessions with an idle
 * timeout, a hash table of query results, and hit/miss counters.
 *
 * The clock is a parameter (`now`, in system-clock ticks of one
 * nanosecond); the hash functions are parameters. Record ids are the
 * `nat` ids of the record datatypes. Counters are 64-bit and wrap.
 */
module CacheManager {
  import opened Wrappers
  import opened SdmTypes
  import opened HashTable
  import opened Ints

  /** A session idle for more than this many seconds has expired. */
  const SessionTimeout: nat := 1800
  /** Clock ticks per second. */
  const TicksPerSecond: nat := 1_000_000_000

  /** The default capacities of the four LRU caches. */
  const DefaultDriverCapacity: nat := 256
  const DefaultVehicleCapacity: nat := 256
  const DefaultTripCapacity: nat := 512
  const DefaultSessionCapacity: nat := 1024

  /** `CacheEntry<T>`: a cached record, when it was cached, how often it was read, and whether it is dirty. */
  datatype CacheEntry<T> = CacheEntry(data: T, timestamp: u64, accessCount: u32, dirty: bool)

  /** `CacheEntry(d)` stamped with the current time, then given its dirty flag, as put_* builds it. */
  function NewEntry<T>(d: T, now: u64, dirty: bool): (e: CacheEntry<T>)
    ensures e.data == d && e.timestamp == now && e.accessCount == 0 && e.dirty == dirty
  {
    CacheEntry(d, now, 0, dirty)
  }

  /** A read of a cached entry: its access count goes up by one, everything else stays. */
  function Accessed<T>(e: CacheEntry<T>): (r: CacheEntry<T>)
    ensures r.data == e.data && r.timestamp == e.timestamp && r.dirty == e.dirty
    ensures r.accessCount == Inc32(e.accessCount)
  {
    e.(accessCount := Inc32(e.accessCount))
  }

  /** The id a driver profile is cached under. */
  function DriverKey(d: DriverProfile): nat
  {
    d.driverId
  }

  /** The id a vehicle is cached under. */
  function VehicleKey(v: VehicleInfo): nat
  {
    v.vehicleId
  }

  /** Every entry of r is the entry contents holds, or a clean entry of a record of ds stamped with that record's reading. */
  ghost predicate FromWarmup<T>(contents: map<nat, CacheEntry<T>>, r: map<nat, CacheEntry<T>>,
                                ds: seq<T>, nows: seq<u64>, key: T -> nat)
    requires |nows| == |ds|
  {
    forall x :: x in r ==>
      (x in contents && r[x] == contents[x])
      || exists j :: 0 <= j < |ds| && key(ds[j]) == x && r[x] == NewEntry(ds[j], nows[j], false)
  }

  /**
   * The recency list and entries of a record cache of the given capacity
   * after putting every record of ds, in order and clean, under key(record),
   * starting from order and contents: what warmup_*_cache leaves. Each put
   * reads the clock once, so record ds[j] is stamped with reading nows[j].
   */
  function Warmed<T>(order: seq<nat>, contents: map<nat, CacheEntry<T>>, capacity: nat,
                     ds: seq<T>, nows: seq<u64>, key: T -> nat): (r: (seq<nat>, map<nat, CacheEntry<T>>))
    requires |nows| == |ds|
    ensures FromWarmup(contents, r.1, ds, nows, key)
    ensures ds != [] && capacity > 0 ==>
      var last := ds[|ds| - 1];
      |r.0| > 0 && r.0[0] == key(last) && key(last) in r.1 && r.1[key(last)] == NewEntry(last, nows[|ds| - 1], false)
    decreases |ds|
  {
    if ds == [] then (order, contents)
    else
      var n := |ds| - 1;
      var w := Warmed(order, contents, capacity, ds[..n], nows[..n], key);
      var r := PutContents(w.0, w.1, key(ds[n]), NewEntry(ds[n], nows[n], false), capacity);
      WarmedOrigin(contents, w.1, r, ds[..n], nows[..n], ds, nows, key);
      WarmedLast(w.0, w.1, capacity, ds, nows, key);
      (PutOrder(w.0, key(ds[n]), capacity), r)
  }

  /** With room for one entry, the record put last heads the list and is cached with its own reading. */
  lemma WarmedLast<T>(order: seq<nat>, contents: map<nat, CacheEntry<T>>, capacity: nat,
                      ds: seq<T>, nows: seq<u64>, key: T -> nat)
    requires 0 < |ds| == |nows|
    ensures capacity > 0 ==>
      var n := |ds| - 1;
      var o := PutOrder(order, key(ds[n]), capacity);
      var c := PutContents(order, contents, key(ds[n]), NewEntry(ds[n], nows[n], false), capacity);
      |o| > 0 && o[0] == key(ds[n]) && key(ds[n]) in c && c[key(ds[n])] == NewEntry(ds[n], nows[n], false)
  {
    var n := |ds| - 1;
    PutKeepsKey(order, contents, key(ds[n]), NewEntry(ds[n], nows[n], false), capacity);
  }

  /**
   * Where the entries after one more warmed record come from: the start, or
   * a record of ds with its own reading. ps and qs are ds and nows without
   * their last element.
   */
  lemma WarmedOrigin<T>(contents: map<nat, CacheEntry<T>>, w: map<nat, CacheEntry<T>>, r: map<nat, CacheEntry<T>>,
                        ps: seq<T>, qs: seq<u64>, ds: seq<T>, nows: seq<u64>, key: T -> nat)
    requires 0 < |ds| == |nows| && ps == ds[..|ds| - 1] && qs == nows[..|nows| - 1]
    requires FromWarmup(contents, w, ps, qs, key)
    requires forall x :: x in r && x != key(ds[|ds| - 1]) ==> x in w && r[x] == w[x]
    requires key(ds[|ds| - 1]) in r ==> r[key(ds[|ds| - 1])] == NewEntry(ds[|ds| - 1], nows[|ds| - 1], false)
    ensures FromWarmup(contents, r, ds, nows, key)
  {
  }

  /** One more record of ds warmed: a put, stamped with its own clock reading, onto the state the first i left. */
  lemma WarmedStep<T>(order: seq<nat>, contents: map<nat, CacheEntry<T>>, capacity: nat,
                      ds: seq<T>, nows: seq<u64>, i: nat, key: T -> nat)
    requires i < |ds| == |nows|
    ensures var w := Warmed(order, contents, capacity, ds[..i], nows[..i], key);
      Warmed(order, contents, capacity, ds[..i + 1], nows[..i + 1], key)
      == (PutOrder(w.0, key(ds[i]), capacity), PutContents(w.0, w.1, key(ds[i]), NewEntry(ds[i], nows[i], false), capacity))
  {
    assert ds[..i + 1][..i] == ds[..i];
    assert nows[..i + 1][..i] == nows[..i];
  }

  /**
   * get_session's expiry test: the whole seconds between the last
   * activity and now, computed on uint64_t (so a last activity after now
   * wraps around), exceed the timeout.
   */
  function Expired(now: u64, lastActivity: nat): (b: bool)
  {
    var elapsed := ((now - lastActivity) % Two64) / TicksPerSecond;
    elapsed > SessionTimeout
  }

  /** With the clock not behind the last activity, a session expires exactly once 1801 whole seconds have passed. */
  lemma ExpiredForward(now: u64, lastActivity: nat)
    requires lastActivity <= now
    ensures Expired(now, lastActivity) <==> now - lastActivity >= (SessionTimeout + 1) * TicksPerSecond
  {
    assert (now - lastActivity) % Two64 == now - lastActivity;
  }

  /**
   * A last activity up to 2^64 − 1801 s ahead of the clock wraps around to a
   * huge idle time, so the session is treated as expired.
   */
  lemma ExpiredBackward(now: u64, lastActivity: u64)
    requires now < lastActivity && lastActivity - now <= Two64 - (SessionTimeout + 1) * TicksPerSecond
    ensures Expired(now, lastActivity)
  {
    assert (now - lastActivity) % Two64 == Two64 - (lastActivity - now);
  }

  /** get_stats' hit rate, as written: the denominator is the wrapped uint64_t sum hits + misses. */
  function HitRateAsWritten(hits: u64, misses: u64): (r: real)
  {
    var total := (hits + misses) % Two64;
    if total > 0 then hits as real / total as real else 0.0
  }

  /** Two counters whose sum wraps to 1 give a "hit rate" far above one. */
  lemma HitRateAsWrittenOverflows()
    ensures HitRateAsWritten(Two64 - 1, 2) > 1.0
  {
    assert (Two64 - 1 + 2) % Two64 == 1;
  }

  /** The hit rate: hits over all accesses, zero when there were none. */
  function HitRate(hits: u64, misses: u64): (r: real)
    ensures 0.0 <= r <= 1.0
    ensures r == 0.0 <==> hits == 0
    ensures r == 1.0 <==> hits > 0 && misses == 0
  {
    if hits + misses > 0 then hits as real / (hits + misses) as real else 0.0
  }

  /** Below 2^64 accesses the as-written rate is the hit rate. */
  lemma HitRateAgrees(hits: u64, misses: u64)
    requires hits + misses < Two64
    ensures HitRateAsWritten(hits, misses) == HitRate(hits, misses)
  {
    assert (hits + misses) % Two64 == hits + misses;
  }

  /** `CacheStats`. */
  datatype CacheStats = CacheStats(
    driverHits: u64, driverMisses: u64, driverHitRate: real,
    vehicleHits: u64, vehicleMisses: u64, vehicleHitRate: real,
    tripHits: u64, tripMisses: u64, tripHitRate: real,
    sessionHits: u64, sessionMisses: u64, sessionHitRate: real,
    driverCacheSize: nat, vehicleCacheSize: nat, tripCacheSize: nat, sessionCacheSize: nat, queryCacheSize: nat)

  /**
   * One of the three record caches with its hit and miss counters:
   * get_driver/put_driver/invalidate_driver and their vehicle and trip
   * copies have the same code over different record types.
   */
  class RecordCache<T> {
    const lru: LRUCache<nat, CacheEntry<T>>
    var hits: u64
    var misses: u64

    ghost predicate Valid()
      reads lru, lru.table
    {
      lru.Valid()
    }

    constructor (hash: nat -> nat, capacity: nat)
      ensures Valid() && fresh(lru) && fresh(lru.table)
      ensures lru.capacity == capacity && lru.order == [] && lru.table.contents == map[]
      ensures hits == 0 && misses == 0
    {
      lru := new LRUCache(hash, capacity);
      hits, misses := 0, 0;
    }

    /**
     * The state after a hit on id, from recency list order0 and entries
     * contents0: id moved to the front and its entry read once more;
     * every other entry unchanged.
     */
    ghost predicate AfterHit(order0: seq<nat>, contents0: map<nat, CacheEntry<T>>, id: nat)
      reads lru, lru.table
    {
      id in contents0 && lru.order == Touch(order0, id)
      && id in lru.table.contents && lru.table.contents[id] == Accessed(contents0[id])
      && forall x :: x in lru.table.contents && x != id ==> x in contents0 && lru.table.contents[x] == contents0[x]
    }

    /**
     * get_*: a hit returns the record, moves its id to the front, puts the
     * entry back with one more access and counts a hit; a miss counts a miss.
     */
    method Get(id: nat) returns (r: Option<T>)
      requires Valid()
      modifies this, lru, lru.table
      ensures Valid()
      ensures r.Some? <==> id in old(lru.order)
      ensures r.Some? ==> r.value == old(lru.table.contents)[id].data
      ensures r.Some? ==> AfterHit(old(lru.order), old(lru.table.contents), id)
      ensures r.None? ==> lru.order == old(lru.order) && lru.table.contents == old(lru.table.contents)
      ensures hits == if r.Some? then Inc64(old(hits)) else old(hits)
      ensures misses == if r.Some? then old(misses) else Inc64(old(misses))
    {
      ghost var order0 := lru.order;
      var entry := lru.Get(id);
      if entry.None? {
        misses := Inc64(misses);
        return None;
      }
      Reaccess(order0, id, entry.value);
      return Some(entry.value.data);
    }

    /** The hit path of get_*: the entry e under id, already moved to the front, goes back with one more access. */
    method Reaccess(ghost order0: seq<nat>, id: nat, e: CacheEntry<T>)
      requires Valid() && id in lru.table.contents && lru.table.contents[id] == e
      requires lru.order == Touch(order0, id)
      modifies this, lru, lru.table
      ensures Valid() && AfterHit(order0, old(lru.table.contents), id)
      ensures hits == Inc64(old(hits)) && misses == old(misses)
    {
      TouchTwice(order0, id);
      lru.Put(id, Accessed(e));
      hits := Inc64(hits);
    }

    /** put_*: caches a fresh entry for the record under id, with the given dirty flag. */
    method Put(id: nat, d: T, dirty: bool, now: u64)
      requires Valid()
      modifies lru, lru.table
      ensures Valid()
      ensures var t := Touch(old(lru.order), id); lru.order == if |t| > lru.capacity then t[..|t| - 1] else t
      ensures id in lru.table.contents ==> lru.table.contents[id] == NewEntry(d, now, dirty)
      ensures lru.capacity > 0 ==> id in lru.table.contents && lru.order[0] == id
      ensures forall x :: x in lru.table.contents && x != id ==>
                x in old(lru.table.contents) && lru.table.contents[x] == old(lru.table.contents)[x]
      ensures lru.order == PutOrder(old(lru.order), id, lru.capacity)
      ensures lru.table.contents == PutContents(old(lru.order), old(lru.table.contents), id, NewEntry(d, now, dirty), lru.capacity)
    {
      lru.Put(id, NewEntry(d, now, dirty));
    }

    /** invalidate_*: drops id from the cache. */
    method Invalidate(id: nat)
      requires Valid()
      modifies lru, lru.table
      ensures Valid()
      ensures lru.order == Drop(old(lru.order), id) && id !in lru.table.contents
      ensures forall x :: x in lru.table.contents ==>
                x in old(lru.table.contents) && lru.table.contents[x] == old(lru.table.contents)[x]
    {
      lru.Remove(id);
    }

    /** clear: the cache is emptied; the counters stay. */
    method Clear()
      requires Valid()
      modifies lru, lru.table
      ensures Valid() && lru.order == [] && lru.table.contents == map[]
    {
      lru.Clear();
    }

    /**
     * The loop of warmup_*_cache: puts every record of ds, in order and
     * clean, under key(record); nows[j] is the clock reading the put of
     * ds[j] takes.
     */
    method Warmup(ds: seq<T>, nows: seq<u64>, key: T -> nat)
      requires Valid() && |nows| == |ds|
      modifies lru, lru.table
      ensures Valid()
      ensures (lru.order, lru.table.contents) == Warmed(old(lru.order), old(lru.table.contents), lru.capacity, ds, nows, key)
    {
      var i := 0;
      while i < |ds|
        invariant 0 <= i <= |ds|
        invariant Valid()
        invariant (lru.order, lru.table.contents) == Warmed(old(lru.order), old(lru.table.contents), lru.capacity, ds[..i], nows[..i], key)
      {
        WarmNext(old(lru.order), old(lru.table.contents), ds, nows, i, key);
        i := i + 1;
      }
      assert ds[..i] == ds && nows[..i] == nows;
    }

    /** One turn of the warmup loop: the put of ds[i], at clock reading nows[i], onto the state the first i records left. */
    method WarmNext(ghost order0: seq<nat>, ghost contents0: map<nat, CacheEntry<T>>, ds: seq<T>, nows: seq<u64>, i: nat, key: T -> nat)
      requires Valid() && i < |ds| == |nows|
      requires (lru.order, lru.table.contents) == Warmed(order0, contents0, lru.capacity, ds[..i], nows[..i], key)
      modifies lru, lru.table
      ensures Valid()
      ensures (lru.order, lru.table.contents) == Warmed(order0, contents0, lru.capacity, ds[..i + 1], nows[..i + 1], key)
    {
      WarmedStep(order0, contents0, lru.capacity, ds, nows, i, key);
      Put(key(ds[i]), ds[i], false, nows[i]);
    }

    /** put_* then get_* of the same id, in a cache that holds at least one entry: a hit on the record just put. */
    method PutThenGet(id: nat, d: T, dirty: bool, now: u64) returns (r: Option<T>)
      requires Valid() && lru.capacity > 0
      modifies this, lru, lru.table
      ensures Valid() && r == Some(d)
      ensures hits == Inc64(old(hits)) && misses == old(misses)
    {
      Put(id, d, dirty, now);
      r := Get(id);
    }

    /** invalidate_* then get_* of the same id: a miss. */
    method InvalidateThenGet(id: nat) returns (r: Option<T>)
      requires Valid()
      modifies this, lru, lru.table
      ensures Valid() && r == None
      ensures hits == old(hits) && misses == Inc64(old(misses))
    {
      Invalidate(id);
      r := Get(id);
    }
  }


  /** A record cache none of whose objects changed is still valid. */
  twostate lemma RecordFramed<T>(c: RecordCache<T>)
    requires old(c.Valid()) && unchanged(c.lru, c.lru.table)
    ensures c.Valid()
  {
  }

  /** The session cache with the session hit and miss counters. */
  class SessionCache {
    const lru: LRUCache<string, SessionInfo>
    var hits: u64
    var misses: u64

    ghost predicate Valid()
      reads lru, lru.table
    {
      lru.Valid()
    }

    constructor (hash: string -> nat, capacity: nat)
      ensures Valid() && fresh(lru) && fresh(lru.table)
      ensures lru.capacity == capacity && lru.order == [] && lru.table.contents == map[]
      ensures hits == 0 && misses == 0
    {
      lru := new LRUCache(hash, capacity);
      hits, misses := 0, 0;
    }

    /**
     * get_session: a cached session idle for longer than the timeout is
     * dropped and counts as a miss; otherwise its last activity becomes
     * now, it is put back and counts as a hit.
     */
    method Get(id: string, now: u64) returns (r: Option<SessionInfo>)
      requires Valid()
      modifies this, lru, lru.table
      ensures Valid()
      ensures r.Some? <==> id in old(lru.order) && !Expired(now, old(lru.table.contents)[id].lastActivity)
      ensures r.Some? ==> r.value == old(lru.table.contents)[id].(lastActivity := now)
      ensures r.Some? ==> id in lru.table.contents && lru.table.contents[id] == r.value
      ensures r.None? && id in old(lru.order) ==> id !in lru.table.contents
      ensures r.Some? ==> lru.order == Touch(old(lru.order), id) && lru.table.contents == old(lru.table.contents)[id := r.value]
      ensures r.None? && id in old(lru.order) ==>
        lru.order == Drop(old(lru.order), id) && lru.table.contents == old(lru.table.contents) - {id}
      ensures id !in old(lru.order) ==> lru.order == old(lru.order) && lru.table.contents == old(lru.table.contents)
      ensures hits == if r.Some? then Inc64(old(hits)) else old(hits)
      ensures misses == if r.Some? then old(misses) else Inc64(old(misses))
    {
      var found := lru.Get(id);
      if found.None? {
        misses := Inc64(misses);
        return None;
      }
      var session := found.value;
      if Expired(now, session.lastActivity) {
        DropTouched(old(lru.order), id);
        Expire(id);
        return None;
      }
      session := session.(lastActivity := now);
      TouchTwice(old(lru.order), id);
      Refresh(id, session);
      return Some(session);
    }

    /** The expired path of get_session: the session is dropped and a miss is counted. */
    method Expire(id: string)
      requires Valid()
      modifies this, lru, lru.table
      ensures Valid() && id !in lru.table.contents
      ensures lru.order == Drop(old(lru.order), id) && lru.table.contents == old(lru.table.contents) - {id}
      ensures hits == old(hits) && misses == Inc64(old(misses))
    {
      lru.Remove(id);
      misses := Inc64(misses);
    }

    /** The hit path of get_session: the session goes back with its new last activity, and a hit is counted. */
    method Refresh(id: string, s: SessionInfo)
      requires Valid() && id in lru.order
      modifies this, lru, lru.table
      ensures Valid() && id in lru.table.contents && lru.table.contents[id] == s
      ensures lru.order == Touch(old(lru.order), id) && lru.table.contents == old(lru.table.contents)[id := s]
      ensures hits == Inc64(old(hits)) && misses == old(misses)
    {
      Put(id, s);
      hits := Inc64(hits);
    }

    /** put_session. */
    method Put(id: string, s: SessionInfo)
      requires Valid()
      modifies lru, lru.table
      ensures Valid()
      ensures id in lru.table.contents ==> lru.table.contents[id] == s
      ensures lru.capacity > 0 ==> id in lru.table.contents && lru.order[0] == id
      ensures forall x :: x in lru.table.contents && x != id ==>
                x in old(lru.table.contents) && lru.table.contents[x] == old(lru.table.contents)[x]
      ensures lru.order == PutOrder(old(lru.order), id, lru.capacity)
      ensures lru.table.contents == PutContents(old(lru.order), old(lru.table.contents), id, s, lru.capacity)
    {
      lru.Put(id, s);
    }

    /** invalidate_session. */
    method Invalidate(id: string)
      requires Valid()
      modifies lru, lru.table
      ensures Valid() && id !in lru.table.contents
      ensures forall x :: x in lru.table.contents ==>
                x in old(lru.table.contents) && lru.table.contents[x] == old(lru.table.contents)[x]
    {
      lru.Remove(id);
    }

    method Clear()
      requires Valid()
      modifies lru, lru.table
      ensures Valid() && lru.order == [] && lru.table.contents == map[]
    {
      lru.Clear();
    }
  }

  twostate lemma SessionFramed(c: SessionCache)
    requires old(c.Valid()) && unchanged(c.lru, c.lru.table)
    ensures c.Valid()
  {
  }

  /** The query-result cache: a hash table from query key to result ids. */
  class QueryCache {
    const table: HashTable<string, seq<u64>>

    ghost predicate Valid()
      reads table
    {
      table.Valid()
    }

    constructor (hash: string -> nat)
      ensures Valid() && fresh(table) && table.contents == map[]
    {
      table := new HashTable.Default(hash);
    }

    /** get_query_result: the stored result ids for the query key, if any. */
    method Get(key: string) returns (r: Option<seq<u64>>)
      requires Valid()
      ensures r.Some? <==> key in table.contents
      ensures r.Some? ==> r.value == table.contents[key]
    {
      r := table.Get(key);
    }

    /** put_query_result: stores the result ids under the query key. */
    method Put(key: string, results: seq<u64>)
      requires Valid()
      modifies table
      ensures Valid() && table.contents == old(table.contents)[key := results]
    {
      table.Insert(key, results);
    }

    /** invalidate_query_result. */
    method Invalidate(key: string)
      requires Valid()
      modifies table
      ensures Valid() && table.contents == old(table.contents) - {key}
    {
      var _ := table.Remove(key);
    }

    /** put_query_result then get_query_result of the same key: the results just stored. */
    method PutThenGet(key: string, results: seq<u64>) returns (r: Option<seq<u64>>)
      requires Valid()
      modifies table
      ensures Valid() && r == Some(results)
    {
      Put(key, results);
      r := Get(key);
    }

    /** clear_query_cache. */
    method Clear()
      requires Valid()
      modifies table
      ensures Valid() && table.contents == map[]
    {
      table.Clear();
    }
  }

  twostate lemma QueryFramed(c: QueryCache)
    requires old(c.Valid()) && unchanged(c.table)
    ensures c.Valid()
  {
  }

  /**
   * CacheManager: the three record caches, the session cache and the
   * query-result cache. Each cache object carries the counters that
   * belong to it.
   */
  class CacheManager {
    const drivers: RecordCache<DriverProfile>
    const vehicles: RecordCache<VehicleInfo>
    const trips: RecordCache<TripRecord>
    const sessions: SessionCache
    const queries: QueryCache

    /** CacheManager(driver_capacity, vehicle_capacity, trip_capacity, session_capacity): empty caches, zero counters. */
    constructor (idHash: nat -> nat, keyHash: string -> nat,
                 driverCapacity: nat, vehicleCapacity: nat, tripCapacity: nat, sessionCapacity: nat)
      ensures drivers.Valid() && vehicles.Valid() && trips.Valid() && sessions.Valid() && queries.Valid()
      ensures drivers.lru.capacity == driverCapacity && vehicles.lru.capacity == vehicleCapacity
      ensures trips.lru.capacity == tripCapacity && sessions.lru.capacity == sessionCapacity
      ensures drivers.lru.table.contents == map[] && vehicles.lru.table.contents == map[]
      ensures trips.lru.table.contents == map[] && sessions.lru.table.contents == map[]
      ensures queries.table.contents == map[]
      ensures drivers.hits == drivers.misses == vehicles.hits == vehicles.misses == 0
      ensures trips.hits == trips.misses == sessions.hits == sessions.misses == 0
    {
      var d := new RecordCache(idHash, driverCapacity);
      label MadeDrivers:
      var v := new RecordCache(idHash, vehicleCapacity);
      label MadeVehicles:
      var t := new RecordCache(idHash, tripCapacity);
      label MadeTrips:
      var s := new SessionCache(keyHash, sessionCapacity);
      label MadeSessions:
      var q := new QueryCache(keyHash);
      RecordFramed@MadeDrivers(d);
      RecordFramed@MadeVehicles(v);
      RecordFramed@MadeTrips(t);
      SessionFramed@MadeSessions(s);
      drivers, vehicles, trips, sessions, queries := d, v, t, s, q;
    }

    /**
     * get_stats: the counters, the hit rates as the program computes them
     * (over the wrapped 64-bit sum of hits and misses; HitRateAgrees gives
     * the true rate below 2^64 accesses) and the five cache sizes.
     */
    method GetStats() returns (s: CacheStats)
      requires drivers.Valid() && vehicles.Valid() && trips.Valid() && sessions.Valid() && queries.Valid()
      ensures s.driverHits == drivers.hits && s.driverMisses == drivers.misses
      ensures s.driverHitRate == HitRateAsWritten(drivers.hits, drivers.misses)
      ensures s.vehicleHits == vehicles.hits && s.vehicleMisses == vehicles.misses
      ensures s.vehicleHitRate == HitRateAsWritten(vehicles.hits, vehicles.misses)
      ensures s.tripHits == trips.hits && s.tripMisses == trips.misses
      ensures s.tripHitRate == HitRateAsWritten(trips.hits, trips.misses)
      ensures s.sessionHits == sessions.hits && s.sessionMisses == sessions.misses
      ensures s.sessionHitRate == HitRateAsWritten(sessions.hits, sessions.misses)
      ensures s.driverCacheSize == |drivers.lru.order| && s.vehicleCacheSize == |vehicles.lru.order|
      ensures s.tripCacheSize == |trips.lru.order| && s.sessionCacheSize == |sessions.lru.order|
      ensures s.queryCacheSize == |queries.table.contents|
    {
      s := CacheStats(
        drivers.hits, drivers.misses, HitRateAsWritten(drivers.hits, drivers.misses),
        vehicles.hits, vehicles.misses, HitRateAsWritten(vehicles.hits, vehicles.misses),
        trips.hits, trips.misses, HitRateAsWritten(trips.hits, trips.misses),
        sessions.hits, sessions.misses, HitRateAsWritten(sessions.hits, sessions.misses),
        drivers.lru.size, vehicles.lru.size, trips.lru.size, sessions.lru.size, queries.table.size);
    }

    /** reset_stats: all eight counters back to zero. */
    method ResetStats()
      modifies drivers, vehicles, trips, sessions
      ensures drivers.hits == drivers.misses == vehicles.hits == vehicles.misses == 0
      ensures trips.hits == trips.misses == sessions.hits == sessions.misses == 0
      ensures unchanged(drivers.lru, drivers.lru.table, vehicles.lru, vehicles.lru.table, trips.lru, trips.lru.table)
      ensures unchanged(sessions.lru, sessions.lru.table, queries.table)
    {
      drivers.hits, drivers.misses := 0, 0;
      vehicles.hits, vehicles.misses := 0, 0;
      trips.hits, trips.misses := 0, 0;
      sessions.hits, sessions.misses := 0, 0;
    }

    /** The driver, vehicle and trip caches are valid and empty. */
    ghost predicate RecordsCleared()
      reads drivers.lru, drivers.lru.table, vehicles.lru, vehicles.lru.table, trips.lru, trips.lru.table
    {
      drivers.Valid() && vehicles.Valid() && trips.Valid()
      && drivers.lru.table.contents == map[] && vehicles.lru.table.contents == map[]
      && trips.lru.table.contents == map[]
    }

    /** The session and query-result caches are valid and empty. */
    ghost predicate LookupsCleared()
      reads sessions.lru, sessions.lru.table, queries.table
    {
      sessions.Valid() && queries.Valid()
      && sessions.lru.table.contents == map[] && queries.table.contents == map[]
    }

    /** clear_all: empties all five caches; the counters stay. */
    method ClearAll()
      requires drivers.Valid() && vehicles.Valid() && trips.Valid() && sessions.Valid() && queries.Valid()
      modifies drivers.lru, drivers.lru.table, vehicles.lru, vehicles.lru.table
      modifies trips.lru, trips.lru.table, sessions.lru, sessions.lru.table, queries.table
      ensures RecordsCleared() && LookupsCleared()
    {
      ClearRecordCaches();
      SessionFramed(sessions);
      QueryFramed(queries);
      ClearLookupsAfterRecords();
    }

    /** The last two steps of clear_all, once the record caches are cleared: they stay cleared. */
    method ClearLookupsAfterRecords()
      requires RecordsCleared() && sessions.Valid() && queries.Valid()
      modifies sessions.lru, sessions.lru.table, queries.table
      ensures RecordsCleared() && LookupsCleared()
    {
      label ClearedRecords:
      ClearLookupCaches();
      RecordsFramed@ClearedRecords(this);
    }

    /** The first three steps of clear_all: the driver, vehicle and trip caches. */
    method ClearRecordCaches()
      requires drivers.Valid() && vehicles.Valid() && trips.Valid()
      modifies drivers.lru, drivers.lru.table, vehicles.lru, vehicles.lru.table, trips.lru, trips.lru.table
      ensures RecordsCleared()
    {
      drivers.Clear();
      label ClearedDrivers:
      RecordFramed(vehicles);
      vehicles.Clear();
      label ClearedVehicles:
      RecordFramed(trips);
      trips.Clear();
      RecordFramed@ClearedDrivers(drivers);
      RecordFramed@ClearedVehicles(vehicles);
    }

    /** The last two steps of clear_all: the session and query-result caches. */
    method ClearLookupCaches()
      requires sessions.Valid() && queries.Valid()
      modifies sessions.lru, sessions.lru.table, queries.table
      ensures LookupsCleared()
    {
      sessions.Clear();
      label ClearedSessions:
      QueryFramed(queries);
      queries.Clear();
      SessionFramed@ClearedSessions(sessions);
    }

    /** put_driver: caches the profile under id (see RecordCache.Put). */
    method PutDriver(id: nat, d: DriverProfile, dirty: bool, now: u64)
      requires drivers.Valid()
      modifies drivers.lru, drivers.lru.table
      ensures drivers.Valid()
      ensures id in drivers.lru.table.contents ==> drivers.lru.table.contents[id] == NewEntry(d, now, dirty)
      ensures drivers.lru.capacity > 0 ==> id in drivers.lru.table.contents
      ensures drivers.lru.order == PutOrder(old(drivers.lru.order), id, drivers.lru.capacity)
      ensures drivers.lru.table.contents ==
        PutContents(old(drivers.lru.order), old(drivers.lru.table.contents), id, NewEntry(d, now, dirty), drivers.lru.capacity)
    {
      drivers.Put(id, d, dirty, now);
    }

    /** put_vehicle: caches the vehicle under id (see RecordCache.Put). */
    method PutVehicle(id: nat, v: VehicleInfo, dirty: bool, now: u64)
      requires vehicles.Valid()
      modifies vehicles.lru, vehicles.lru.table
      ensures vehicles.Valid()
      ensures id in vehicles.lru.table.contents ==> vehicles.lru.table.contents[id] == NewEntry(v, now, dirty)
      ensures vehicles.lru.capacity > 0 ==> id in vehicles.lru.table.contents
      ensures vehicles.lru.order == PutOrder(old(vehicles.lru.order), id, vehicles.lru.capacity)
      ensures vehicles.lru.table.contents ==
        PutContents(old(vehicles.lru.order), old(vehicles.lru.table.contents), id, NewEntry(v, now, dirty), vehicles.lru.capacity)
    {
      vehicles.Put(id, v, dirty, now);
    }

    /** warmup_driver_cache: puts every profile under its own id, in order, clean (see RecordCache.Warmup); nows holds the clock reading of each put. */
    method WarmupDrivers(ds: seq<DriverProfile>, nows: seq<u64>)
      requires drivers.Valid() && |nows| == |ds|
      modifies drivers.lru, drivers.lru.table
      ensures drivers.Valid()
      ensures ds != [] && drivers.lru.capacity > 0 ==>
        var last := ds[|ds| - 1];
        last.driverId in drivers.lru.table.contents && drivers.lru.table.contents[last.driverId] == NewEntry(last, nows[|ds| - 1], false)
      ensures (drivers.lru.order, drivers.lru.table.contents) ==
        Warmed(old(drivers.lru.order), old(drivers.lru.table.contents), drivers.lru.capacity, ds, nows, DriverKey)
    {
      drivers.Warmup(ds, nows, DriverKey);
    }

    /** warmup_vehicle_cache: puts every vehicle under its own id, in order, clean (see RecordCache.Warmup); nows holds the clock reading of each put. */
    method WarmupVehicles(vs: seq<VehicleInfo>, nows: seq<u64>)
      requires vehicles.Valid() && |nows| == |vs|
      modifies vehicles.lru, vehicles.lru.table
      ensures vehicles.Valid()
      ensures vs != [] && vehicles.lru.capacity > 0 ==>
        var last := vs[|vs| - 1];
        last.vehicleId in vehicles.lru.table.contents && vehicles.lru.table.contents[last.vehicleId] == NewEntry(last, nows[|vs| - 1], false)
      ensures (vehicles.lru.order, vehicles.lru.table.contents) ==
        Warmed(old(vehicles.lru.order), old(vehicles.lru.table.contents), vehicles.lru.capacity, vs, nows, VehicleKey)
    {
      vehicles.Warmup(vs, nows, VehicleKey);
    }
  }

  /** Clearing the session and query caches leaves the cleared record caches cleared. */
  twostate lemma RecordsFramed(m: CacheManager)
    requires old(m.RecordsCleared())
    requires unchanged(m.drivers.lru, m.drivers.lru.table, m.vehicles.lru, m.vehicles.lru.table, m.trips.lru, m.trips.lru.table)
    ensures m.RecordsCleared()
  {
  }
}
