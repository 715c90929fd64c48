// The index manager: one B-Tree primary index over (entity type, id,
// timestamp) and three B+ Tree secondary indexes, driver e-mail, vehicle
// plate and driver username, each a file of its own in the index
// directory. The files are given as what the directory holds (whether each
// exists, whether it can be created, its metadata and its pages); the
// console messages are left out.

module IndexManager {
  import opened Wrappers
  import opened Ints
  import BTree
  import BPlusTree
  import SdmTypes
  import Streams

  /** The `entity_type` of the driver and vehicle entries of the secondary indexes. */
  const DriverEntity: u8 := 1
  const VehicleEntity: u8 := 2

  /** The `index_name` each secondary tree is given. */
  const EmailIndex := "driver_email"
  const PlateIndex := "vehicle_plate"
  const UsernameIndex := "driver_username"

  /** What the directory holds for `primary.idx`. */
  datatype PrimaryFile = PrimaryFile(present: bool, creatable: bool, meta: BTree.Metadata, disk: BTree.Disk)

  /** What the directory holds for one secondary index file. */
  datatype SecondaryFile = SecondaryFile(present: bool, creatable: bool, meta: BPlusTree.Metadata,
                                         pages: map<nat, BPlusTree.Page>, end: nat)

  ghost predicate Wellformed(p: PrimaryFile)
  {
    BTree.Bounded(p.disk)
  }

  ghost predicate WellformedSecondary(s: SecondaryFile)
  {
    BPlusTree.Bounded(BPlusTree.File(false, s.pages, s.end))
  }

  // Keys.

  /** The primary key of a record: sequence 0. */
  function PrimaryKey(entityType: u8, entityId: u64, timestamp: u64): BTree.CompositeKey
  {
    BTree.CompositeKey(entityType, entityId, timestamp, 0)
  }

  /** The value `insert_primary` stores: file 1, a 1024-byte record. */
  function PrimaryValue(recordOffset: u64): BTree.BTreeValue
  {
    BTree.BTreeValue(recordOffset, 1, 1024)
  }

  /** The bounds of `range_query_primary`: sequence 0 at the start time, UINT32_MAX at the end time. */
  function RangeLow(entityType: u8, entityId: u64, startTime: u64): BTree.CompositeKey
  {
    BTree.CompositeKey(entityType, entityId, startTime, 0)
  }

  function RangeHigh(entityType: u8, entityId: u64, endTime: u64): BTree.CompositeKey
  {
    BTree.CompositeKey(entityType, entityId, endTime, Two32 - 1)
  }

  /**
   * The bounds of `range_query_primary` take in exactly the keys of that
   * entity whose timestamp lies between the two times, whatever their
   * sequence number.
   */
  lemma RangeWindow(entityType: u8, entityId: u64, startTime: u64, endTime: u64, k: BTree.CompositeKey, v: BTree.BTreeValue)
    ensures BTree.InRange(RangeLow(entityType, entityId, startTime), RangeHigh(entityType, entityId, endTime))((k, v))
            <==> k.entityType == entityType && k.primaryId == entityId && startTime <= k.timestamp <= endTime
  {
  }

  /** Every offset `range_query_primary` reports is that of a stored record of the entity within the time window. */
  lemma RangeReportsWindow(d: BTree.Disk, root: nat, entityType: u8, entityId: u64, startTime: u64, endTime: u64, fuel: nat)
    ensures var lo, hi := RangeLow(entityType, entityId, startTime), RangeHigh(entityType, entityId, endTime);
      forall e :: e in BTree.Range(d, root, lo, hi, fuel) ==>
        e.0.entityType == entityType && e.0.primaryId == entityId && startTime <= e.0.timestamp <= endTime
        && BTree.HeldInLeaf(d, e.0, e.1)
  {
    var lo, hi := RangeLow(entityType, entityId, startTime), RangeHigh(entityType, entityId, endTime);
    BTree.RangeReportsLeafEntries(d, root, lo, hi, fuel);
    forall e | e in BTree.Range(d, root, lo, hi, fuel)
      ensures e.0.entityType == entityType && e.0.primaryId == entityId && startTime <= e.0.timestamp <= endTime
    {
      RangeWindow(entityType, entityId, startTime, endTime, e.0, e.1);
    }
  }

  /** The record offsets of the pairs a range query reports, in order. */
  function RecordOffsets(rs: seq<(BTree.CompositeKey, BTree.BTreeValue)>): (r: seq<u64>)
    ensures |r| == |rs|
    ensures forall i :: 0 <= i < |rs| ==> r[i] == rs[i].1.recordOffset
  {
    if rs == [] then [] else RecordOffsets(rs[..|rs| - 1]) + [rs[|rs| - 1].1.recordOffset]
  }

  /** The loop of `range_query_primary` that copies the record offsets out. */
  method CollectOffsets(rs: seq<(BTree.CompositeKey, BTree.BTreeValue)>) returns (offsets: seq<u64>)
    ensures offsets == RecordOffsets(rs)
  {
    offsets := [];
    for i := 0 to |rs|
      invariant offsets == RecordOffsets(rs[..i])
    {
      assert rs[..i + 1][..i] == rs[..i];
      offsets := offsets + [rs[i].1.recordOffset];
    }
    assert rs[..|rs|] == rs;
  }

  /** The pairs `rebuild_driver_indexes` puts into the e-mail index, one per driver, in order. */
  function EmailEntries(drivers: seq<SdmTypes.DriverProfile>): (r: seq<(string, BPlusTree.BPlusValue)>)
    requires forall i :: 0 <= i < |drivers| ==> drivers[i].driverId < Two64
    ensures |r| == |drivers|
    ensures forall i :: 0 <= i < |drivers| ==>
      r[i] == (BPlusTree.MakeKey(drivers[i].email), BPlusTree.BPlusValue(drivers[i].driverId, DriverEntity))
  {
    if drivers == [] then []
    else
      var d := drivers[|drivers| - 1];
      EmailEntries(drivers[..|drivers| - 1]) + [(BPlusTree.MakeKey(d.email), BPlusTree.BPlusValue(d.driverId, DriverEntity))]
  }

  /** The pairs `rebuild_driver_indexes` puts into the username index. */
  function UsernameEntries(drivers: seq<SdmTypes.DriverProfile>): (r: seq<(string, BPlusTree.BPlusValue)>)
    requires forall i :: 0 <= i < |drivers| ==> drivers[i].driverId < Two64
    ensures |r| == |drivers|
    ensures forall i :: 0 <= i < |drivers| ==>
      r[i] == (BPlusTree.MakeKey(drivers[i].username), BPlusTree.BPlusValue(drivers[i].driverId, DriverEntity))
  {
    if drivers == [] then []
    else
      var d := drivers[|drivers| - 1];
      UsernameEntries(drivers[..|drivers| - 1]) + [(BPlusTree.MakeKey(d.username), BPlusTree.BPlusValue(d.driverId, DriverEntity))]
  }

  /** The pairs `rebuild_vehicle_indexes` puts into the plate index. */
  function PlateEntries(vehicles: seq<SdmTypes.VehicleInfo>): (r: seq<(string, BPlusTree.BPlusValue)>)
    requires forall i :: 0 <= i < |vehicles| ==> vehicles[i].vehicleId < Two64
    ensures |r| == |vehicles|
    ensures forall i :: 0 <= i < |vehicles| ==>
      r[i] == (BPlusTree.MakeKey(vehicles[i].licensePlate), BPlusTree.BPlusValue(vehicles[i].vehicleId, VehicleEntity))
  {
    if vehicles == [] then []
    else
      var v := vehicles[|vehicles| - 1];
      PlateEntries(vehicles[..|vehicles| - 1]) + [(BPlusTree.MakeKey(v.licensePlate), BPlusTree.BPlusValue(v.vehicleId, VehicleEntity))]
  }

  /** Rebuilding the e-mail index counts one entry per driver. */
  lemma EmailsCounted(f: BPlusTree.File, m: BPlusTree.Metadata, drivers: seq<SdmTypes.DriverProfile>)
    requires BPlusTree.Bounded(f) && forall i :: 0 <= i < |drivers| ==> drivers[i].driverId < Two64
    ensures BPlusTree.InsertAll(f, m, EmailEntries(drivers)).1.totalEntries == Add64(m.totalEntries, |drivers|)
  {
    BPlusTree.InsertAllCounts(f, m, EmailEntries(drivers));
  }

  /** Rebuilding the plate index counts one entry per vehicle. */
  lemma PlatesCounted(f: BPlusTree.File, m: BPlusTree.Metadata, vehicles: seq<SdmTypes.VehicleInfo>)
    requires BPlusTree.Bounded(f) && forall i :: 0 <= i < |vehicles| ==> vehicles[i].vehicleId < Two64
    ensures BPlusTree.InsertAll(f, m, PlateEntries(vehicles)).1.totalEntries == Add64(m.totalEntries, |vehicles|)
  {
    BPlusTree.InsertAllCounts(f, m, PlateEntries(vehicles));
  }

  /**
   * A rebuild is not idempotent: rebuilding from the same records twice
   * stores every pair twice and counts it twice.
   */
  lemma RebuildTwiceCountsTwice(f: BPlusTree.File, m: BPlusTree.Metadata, kvs: seq<(string, BPlusTree.BPlusValue)>)
    requires BPlusTree.Bounded(f)
    ensures var once := BPlusTree.InsertAll(f, m, kvs);
      BPlusTree.InsertAll(once.0, once.1, kvs).1.totalEntries == Add64(m.totalEntries, 2 * |kvs|)
  {
    var once := BPlusTree.InsertAll(f, m, kvs);
    var twice := BPlusTree.InsertAll(once.0, once.1, kvs);
    BPlusTree.InsertAllCounts(f, m, kvs);
    BPlusTree.InsertAllCounts(once.0, once.1, kvs);
    Add64Twice(m.totalEntries, once.1.totalEntries, twice.1.totalEntries, |kvs|);
  }

  /**
   * On a secondary index as `create_indexes` leaves it (CreatedSecondary:
   * the stream failed, the file holding the empty root leaf `create`
   * wrote), the key `insert` stores is lost and the search for the same
   * text misses.
   */
  lemma FirstInsertMissed(name: string, text: string, id: u64, kind: u8)
    ensures var f := BPlusTree.FreshFile.(open := false);
      var m := BPlusTree.CreatedMetadata(BPlusTree.NamedMetadata(name));
      var key := BPlusTree.MakeKey(text);
      var r := BPlusTree.InsertTree(f, m, key, BPlusTree.BPlusValue(id, kind));
      r.0 == f && BPlusTree.Find(r.0, r.1.rootOffset, key, |r.0.pages|) == None
  {
    var f := BPlusTree.FreshFile.(open := false);
    var m := BPlusTree.CreatedMetadata(BPlusTree.NamedMetadata(name));
    var key := BPlusTree.MakeKey(text);
    BPlusTree.FailedInsertKeepsFile(f, m, key, BPlusTree.BPlusValue(id, kind));
    var r := BPlusTree.InsertTree(f, m, key, BPlusTree.BPlusValue(id, kind));
    BPlusTree.FailedFindMisses(r.0, r.1.rootOffset, key, |r.0.pages|);
  }

  /**
   * On a secondary index created, closed and opened again
   * (ReopenedSecondary), the key `insert` stores is the one the search for
   * the same text finds, with the id it was stored with.
   */
  lemma FirstInsertFound(name: string, text: string, id: u64, kind: u8)
    ensures var m := BPlusTree.CreatedMetadata(BPlusTree.NamedMetadata(name));
      var key := BPlusTree.MakeKey(text);
      var r := BPlusTree.InsertTree(BPlusTree.FreshFile, m, key, BPlusTree.BPlusValue(id, kind));
      BPlusTree.Find(r.0, r.1.rootOffset, key, |r.0.pages|) == Some(BPlusTree.BPlusValue(id, kind))
  {
    var m := BPlusTree.CreatedMetadata(BPlusTree.NamedMetadata(name));
    var key := BPlusTree.MakeKey(text);
    var r := BPlusTree.InsertTree(BPlusTree.FreshFile, m, key, BPlusTree.BPlusValue(id, kind));
    BPlusTree.InsertedIntoRootLeafIsFound(BPlusTree.FreshFile, m, key, BPlusTree.BPlusValue(id, kind), |r.0.pages|);
  }

  // Building and opening single trees.

  /**
   * `make_unique<BTree>` followed by `create()` and `open()`, stopping at
   * the first failure. `open()` reads from the stream `create()` left open
   * for output only: the read fails, the fresh metadata in memory passes
   * the tag check, and the stream is left failed. The tree then lives in
   * its node cache alone, and the file keeps what `create()` wrote.
   */
  method CreatedPrimary(p: PrimaryFile) returns (t: BTree.BTree, ok: bool)
    requires Wellformed(p)
    ensures fresh(t) && t.Valid() && ok == p.creatable && t.cache == []
    ensures t.stream == if ok then Streams.Failed else Streams.Closed
    ensures ok ==> t.disk == BTree.FreshDisk && t.meta == BTree.FreshMetadata && t.diskMeta == BTree.FreshMetadata
  {
    t := new BTree.BTree(p.present, p.meta, p.disk);
    ok := t.Create(p.creatable);
    if ok {
      ok := t.Open();
    }
  }

  /**
   * `create()`, then `close()` and `open()`: the file `create()` wrote,
   * opened for input and output, with the cache agreeing with it.
   */
  method ReopenedPrimary(p: PrimaryFile) returns (t: BTree.BTree, ok: bool)
    requires Wellformed(p)
    ensures fresh(t) && t.Valid() && ok == p.creatable
    ensures t.stream == if ok then Streams.ReadWrite else Streams.Closed
    ensures ok ==> t.Coherent() && t.disk == BTree.FreshDisk && t.meta == BTree.FreshMetadata
                   && t.diskMeta == BTree.FreshMetadata
  {
    t := new BTree.BTree(p.present, p.meta, p.disk);
    ok := t.Create(p.creatable);
    if ok {
      t.Close();
      ok := t.Open();
    }
  }

  /** `make_unique<BTree>` followed by `open()`: it succeeds when the file exists and carries the magic string. */
  method OpenedPrimary(p: PrimaryFile) returns (t: BTree.BTree, ok: bool)
    requires Wellformed(p)
    ensures fresh(t) && t.Valid() && ok == (p.present && p.meta.magic == BTree.Magic)
    ensures t.stream == if ok then Streams.ReadWrite else Streams.Closed
    ensures ok ==> t.Coherent() && t.disk == p.disk && t.meta == p.meta
  {
    t := new BTree.BTree(p.present, p.meta, p.disk);
    ok := t.Open();
  }

  /**
   * `make_unique<BPlusTree>(file, name)` followed by `create()` and
   * `open()`. As for the primary tree, `open()` fails the stream `create()`
   * left open for output only, and still succeeds: every later node read
   * gives an empty leaf and every write is lost.
   */
  method CreatedSecondary(name: string, s: SecondaryFile) returns (t: BPlusTree.BPlusTree, ok: bool)
    requires WellformedSecondary(s)
    ensures fresh(t) && t.Valid() && ok == s.creatable
    ensures t.stream == if ok then Streams.Failed else Streams.Closed
    ensures ok ==> t.file == BPlusTree.FreshFile.(open := false)
                   && t.meta == BPlusTree.CreatedMetadata(BPlusTree.NamedMetadata(name)) && t.diskMeta == t.meta
  {
    t := new BPlusTree.BPlusTree(name, s.present, s.meta, s.pages, s.end);
    ok := t.Create(s.creatable);
    if ok {
      ok := t.Open();
    }
  }

  /**
   * `create()`, then `close()` and `open()`: the file `create()` wrote,
   * with the metadata written back at the close, open for input and
   * output.
   */
  method ReopenedSecondary(name: string, s: SecondaryFile) returns (t: BPlusTree.BPlusTree, ok: bool)
    requires WellformedSecondary(s)
    ensures fresh(t) && t.Valid() && ok == s.creatable
    ensures t.stream == if ok then Streams.ReadWrite else Streams.Closed
    ensures ok ==> t.file == BPlusTree.FreshFile
                   && t.meta == BPlusTree.CreatedMetadata(BPlusTree.NamedMetadata(name)) && t.diskMeta == t.meta
  {
    t := new BPlusTree.BPlusTree(name, s.present, s.meta, s.pages, s.end);
    ok := t.Create(s.creatable);
    if ok {
      t.Close();
      ok := t.Open();
    }
  }

  /**
   * On the first start, a key inserted into a secondary tree that
   * `create_indexes` built is not found by the search that follows.
   */
  method FirstStartSearchMisses(name: string, s: SecondaryFile, text: string, id: u64, kind: u8) returns (found: bool)
    requires WellformedSecondary(s) && s.creatable
    ensures !found
  {
    var t, ok := CreatedSecondary(name, s);
    var _ := t.Insert(BPlusTree.MakeKey(text), BPlusTree.BPlusValue(id, kind));
    BPlusTree.FailedFindMisses(t.file, t.meta.rootOffset, BPlusTree.MakeKey(text), |t.file.pages|);
    var value;
    found, value := t.Search(BPlusTree.MakeKey(text), BPlusTree.NoValue);
  }

  /** `make_unique<BPlusTree>(file, name)` followed by `open()`: the metadata read from the file replaces the name. */
  method OpenedSecondary(name: string, s: SecondaryFile) returns (t: BPlusTree.BPlusTree, ok: bool)
    requires WellformedSecondary(s)
    ensures fresh(t) && t.Valid() && ok == (s.present && s.meta.magic == BPlusTree.Magic)
    ensures t.stream == if ok then Streams.ReadWrite else Streams.Closed
    ensures ok ==> t.file == BPlusTree.File(true, s.pages, s.end) && t.meta == s.meta
  {
    t := new BPlusTree.BPlusTree(name, s.present, s.meta, s.pages, s.end);
    ok := t.Open();
  }

  /** `insert` into a secondary tree that may be absent: the key is the text cut at 127 bytes. */
  method InsertKey(t: BPlusTree.BPlusTree?, text: string, id: u64, kind: u8) returns (ok: bool)
    requires t != null ==> t.Valid()
    modifies t
    ensures ok == (t != null)
    ensures t != null ==>
      t.Valid() && (t.file, t.meta) == BPlusTree.InsertTree(old(t.file), old(t.meta), BPlusTree.MakeKey(text), BPlusTree.BPlusValue(id, kind))
      && t.stream == Streams.AfterRead(old(t.stream))
  {
    ok := false;
    if t != null {
      ok := t.Insert(BPlusTree.MakeKey(text), BPlusTree.BPlusValue(id, kind));
    }
  }

  /** `search` in a secondary tree that may be absent: the id stored with the text's key, or `prior` when none is. */
  method SearchKey(t: BPlusTree.BPlusTree?, text: string, prior: u64) returns (found: bool, id: u64)
    requires t != null ==> t.Valid()
    modifies t
    ensures t == null ==> !found && id == prior
    ensures t != null ==>
      t.Valid() && t.stream == Streams.AfterRead(old(t.stream)) && unchanged(t`fileExists, t`diskMeta, t`file, t`meta)
    ensures t != null ==>
      var f := BPlusTree.Find(t.file, t.meta.rootOffset, BPlusTree.MakeKey(text), |t.file.pages|);
      found == f.Some? && id == if found then f.value.primaryId else prior
  {
    found, id := false, prior;
    if t != null {
      var value;
      found, value := t.Search(BPlusTree.MakeKey(text), BPlusTree.NoValue);
      if found {
        id := value.primaryId;
      }
    }
  }

  /**
   * A secondary tree that may be absent holds, when present, the first i
   * of the pairs `kvs` inserted one after the other into `f` and `m`.
   */
  ghost predicate HoldsFirst(t: BPlusTree.BPlusTree?, f: BPlusTree.File, m: BPlusTree.Metadata,
                             kvs: seq<(string, BPlusTree.BPlusValue)>, i: nat)
    reads t
  {
    t != null ==> t.Valid() && BPlusTree.Bounded(f) && i <= |kvs| && (t.file, t.meta) == BPlusTree.InsertAll(f, m, kvs[..i])
  }

  /**
   * One turn of a rebuild loop on a secondary tree that may be absent: the
   * i-th of the pairs `kvs`, made from `text`, `id` and `kind`, goes into
   * the tree that already holds the first i.
   */
  method InsertNext(t: BPlusTree.BPlusTree?, ghost f: BPlusTree.File, ghost m: BPlusTree.Metadata,
                    ghost kvs: seq<(string, BPlusTree.BPlusValue)>, i: nat, text: string, id: u64, kind: u8)
    requires i < |kvs| && kvs[i] == (BPlusTree.MakeKey(text), BPlusTree.BPlusValue(id, kind))
    requires HoldsFirst(t, f, m, kvs, i)
    modifies t
    ensures HoldsFirst(t, f, m, kvs, i + 1)
  {
    if t != null {
      BPlusTree.InsertAllNext(f, m, kvs, i);
    }
    var _ := InsertKey(t, text, id, kind);
  }

  /**
   * The loop of `rebuild_driver_indexes`, on the e-mail tree `e` and the
   * username tree `u`, either of which may be absent: the i-th driver's
   * e-mail, then its username.
   */
  method InsertDrivers(e: BPlusTree.BPlusTree?, u: BPlusTree.BPlusTree?, drivers: seq<SdmTypes.DriverProfile>)
    requires (e != null ==> e.Valid()) && (u != null ==> u.Valid()) && (e != null && u != null ==> e != u)
    requires forall i :: 0 <= i < |drivers| ==> drivers[i].driverId < Two64
    modifies e, u
    ensures (e != null ==> e.Valid()) && (u != null ==> u.Valid())
    ensures e != null ==> (e.file, e.meta) == BPlusTree.InsertAll(old(e.file), old(e.meta), EmailEntries(drivers))
    ensures u != null ==> (u.file, u.meta) == BPlusTree.InsertAll(old(u.file), old(u.meta), UsernameEntries(drivers))
  {
    ghost var ef, em := BPlusTree.FreshFile, BPlusTree.NamedMetadata(EmailIndex);
    ghost var uf, um := BPlusTree.FreshFile, BPlusTree.NamedMetadata(UsernameIndex);
    if e != null {
      ef, em := e.file, e.meta;
    }
    if u != null {
      uf, um := u.file, u.meta;
    }
    ghost var emails, usernames := EmailEntries(drivers), UsernameEntries(drivers);
    for i := 0 to |drivers|
      invariant HoldsFirst(e, ef, em, emails, i) && HoldsFirst(u, uf, um, usernames, i)
    {
      var d := drivers[i];
      InsertNext(e, ef, em, emails, i, d.email, d.driverId, DriverEntity);
      InsertNext(u, uf, um, usernames, i, d.username, d.driverId, DriverEntity);
    }
    assert emails[..|drivers|] == emails && usernames[..|drivers|] == usernames;
  }

  /** The loop of `rebuild_vehicle_indexes`, on the plate tree `t`, which may be absent. */
  method InsertVehicles(t: BPlusTree.BPlusTree?, vehicles: seq<SdmTypes.VehicleInfo>)
    requires t != null ==> t.Valid()
    requires forall i :: 0 <= i < |vehicles| ==> vehicles[i].vehicleId < Two64
    modifies t
    ensures t != null ==> t.Valid() && (t.file, t.meta) == BPlusTree.InsertAll(old(t.file), old(t.meta), PlateEntries(vehicles))
  {
    ghost var f, m := BPlusTree.FreshFile, BPlusTree.NamedMetadata(PlateIndex);
    if t != null {
      f, m := t.file, t.meta;
    }
    ghost var plates := PlateEntries(vehicles);
    for i := 0 to |vehicles|
      invariant HoldsFirst(t, f, m, plates, i)
    {
      var v := vehicles[i];
      InsertNext(t, f, m, plates, i, v.licensePlate, v.vehicleId, VehicleEntity);
    }
    assert plates[..|vehicles|] == plates;
  }

  /** `close` on a secondary tree, when there is one: its metadata goes to the file if it was open. */
  twostate predicate ClosedSecondary(t: BPlusTree.BPlusTree?)
    reads t
  {
    t != null ==>
      t.Valid() && t.stream == Streams.Closed && t.file.pages == old(t.file.pages) && t.file.end == old(t.file.end)
      && t.meta == old(t.meta) && t.diskMeta == (if Streams.Writable(old(t.stream)) then t.meta else old(t.diskMeta))
  }

  class IndexManager {
    const indexDir: string
    var primary: BTree.BTree?
    var email: BPlusTree.BPlusTree?
    var plate: BPlusTree.BPlusTree?
    var username: BPlusTree.BPlusTree?

    /** Every tree present is well formed, and the three secondary trees are distinct objects. */
    ghost predicate Valid()
      reads this, primary, email, plate, username
    {
      (primary != null ==> primary.Valid() && !primary.stream.WriteOnly?)
      && (email != null ==> email.Valid())
      && (plate != null ==> plate.Valid())
      && (username != null ==> username.Valid())
      && (email != null && plate != null ==> email != plate)
      && (email != null && username != null ==> email != username)
      && (plate != null && username != null ==> plate != username)
    }

    /** `IndexManager(index_dir)`: no index is held yet. */
    constructor(indexDir: string)
      ensures Valid() && this.indexDir == indexDir
      ensures primary == null && email == null && plate == null && username == null
    {
      this.indexDir := indexDir;
      primary := null;
      email := null;
      plate := null;
      username := null;
    }

    /**
     * `create_indexes`: create and open the primary, e-mail, plate and
     * username trees in that order. It succeeds when every file can be
     * created; the first that cannot stops it, and the trees after it are
     * left as they were. Each tree it builds is left on a failed stream
     * (CreatedPrimary, CreatedSecondary), over the file its `create()`
     * wrote.
     */
    method CreateIndexes(p: PrimaryFile, e: SecondaryFile, v: SecondaryFile, u: SecondaryFile) returns (ok: bool)
      requires Valid() && Wellformed(p) && WellformedSecondary(e) && WellformedSecondary(v) && WellformedSecondary(u)
      modifies this
      ensures Valid() && ok == (p.creatable && e.creatable && v.creatable && u.creatable)
      ensures fresh(primary) && primary.stream == (if p.creatable then Streams.Failed else Streams.Closed)
      ensures p.creatable ==> primary.cache == [] && primary.disk == BTree.FreshDisk && primary.meta == BTree.FreshMetadata
      ensures if p.creatable then fresh(email) && email.stream == (if e.creatable then Streams.Failed else Streams.Closed)
              else email == old(email)
      ensures p.creatable && e.creatable ==>
        email.file == BPlusTree.FreshFile.(open := false) && email.meta == BPlusTree.CreatedMetadata(BPlusTree.NamedMetadata(EmailIndex))
      ensures if p.creatable && e.creatable then fresh(plate) && plate.stream == (if v.creatable then Streams.Failed else Streams.Closed)
              else plate == old(plate)
      ensures p.creatable && e.creatable && v.creatable ==>
        plate.file == BPlusTree.FreshFile.(open := false) && plate.meta == BPlusTree.CreatedMetadata(BPlusTree.NamedMetadata(PlateIndex))
      ensures if p.creatable && e.creatable && v.creatable
              then fresh(username) && username.stream == (if u.creatable then Streams.Failed else Streams.Closed)
              else username == old(username)
      ensures ok ==>
        username.file == BPlusTree.FreshFile.(open := false)
        && username.meta == BPlusTree.CreatedMetadata(BPlusTree.NamedMetadata(UsernameIndex))
    {
      ok := false;
      var pt, pok := CreatedPrimary(p);
      primary := pt;
      if pok {
        var et, eok := CreatedSecondary(EmailIndex, e);
        email := et;
        if eok {
          var vt, vok := CreatedSecondary(PlateIndex, v);
          plate := vt;
          if vok {
            var ut, uok := CreatedSecondary(UsernameIndex, u);
            username := ut;
            ok := uok;
          }
        }
      }
    }

    /**
     * `open_indexes`: open the four existing trees in the same order. It
     * succeeds when every file exists and carries its magic string; the
     * first that does not stops it.
     */
    method OpenIndexes(p: PrimaryFile, e: SecondaryFile, v: SecondaryFile, u: SecondaryFile) returns (ok: bool)
      requires Valid() && Wellformed(p) && WellformedSecondary(e) && WellformedSecondary(v) && WellformedSecondary(u)
      modifies this
      ensures Valid()
      ensures ok == (p.present && p.meta.magic == BTree.Magic && e.present && e.meta.magic == BPlusTree.Magic
                     && v.present && v.meta.magic == BPlusTree.Magic && u.present && u.meta.magic == BPlusTree.Magic)
      ensures fresh(primary) && primary.stream.ReadWrite? == (p.present && p.meta.magic == BTree.Magic)
      ensures primary.stream.ReadWrite? ==> primary.Coherent() && primary.disk == p.disk && primary.meta == p.meta
      ensures if primary.stream.ReadWrite? then fresh(email) && email.file.open == (e.present && e.meta.magic == BPlusTree.Magic)
              else email == old(email)
      ensures primary.stream.ReadWrite? && email.file.open ==>
        email.file == BPlusTree.File(true, e.pages, e.end) && email.meta == e.meta
      ensures if primary.stream.ReadWrite? && email.file.open then fresh(plate) && plate.file.open == (v.present && v.meta.magic == BPlusTree.Magic)
              else plate == old(plate)
      ensures primary.stream.ReadWrite? && email.file.open && plate.file.open ==>
        plate.file == BPlusTree.File(true, v.pages, v.end) && plate.meta == v.meta
      ensures if primary.stream.ReadWrite? && email.file.open && plate.file.open then fresh(username) && username.file.open == ok
              else username == old(username)
      ensures ok ==>
        username.file == BPlusTree.File(true, u.pages, u.end) && username.meta == u.meta
    {
      ok := false;
      var pt, pok := OpenedPrimary(p);
      primary := pt;
      if pok {
        var et, eok := OpenedSecondary(EmailIndex, e);
        email := et;
        if eok {
          var vt, vok := OpenedSecondary(PlateIndex, v);
          plate := vt;
          if vok {
            var ut, uok := OpenedSecondary(UsernameIndex, u);
            username := ut;
            ok := uok;
          }
        }
      }
    }

    /** `close_all`: close every tree held; an open tree writes its metadata back. */
    method CloseAll()
      requires Valid()
      modifies primary, email, plate, username
      ensures Valid()
      ensures primary != null ==>
        primary.stream == Streams.Closed && primary.cache == [] && primary.meta == old(primary.meta) && primary.disk == old(primary.disk)
        && primary.diskMeta == (if Streams.Writable(old(primary.stream)) then primary.meta else old(primary.diskMeta))
      ensures ClosedSecondary(email) && ClosedSecondary(plate) && ClosedSecondary(username)
    {
      if primary != null {
        primary.Close();
      }
      if email != null {
        email.Close();
      }
      if plate != null {
        plate.Close();
      }
      if username != null {
        username.Close();
      }
    }

    /** `insert_primary`: false without a primary tree or when the tree was never created or opened. */
    method InsertPrimary(entityType: u8, entityId: u64, timestamp: u64, recordOffset: u64) returns (ok: bool)
      requires Valid()
      modifies primary
      ensures Valid()
      ensures ok == (primary != null && old(primary.meta).rootOffset != 0)
      ensures ok ==> PrimaryRecordCount() == Inc64(old(PrimaryRecordCount()))
      ensures ok && old(primary.Coherent()) ==>
        primary.Coherent() && (primary.disk, primary.meta)
          == BTree.InsertTree(old(primary.disk), old(primary.meta), PrimaryKey(entityType, entityId, timestamp), PrimaryValue(recordOffset))
    {
      ok := false;
      if primary != null {
        ok := primary.Insert(PrimaryKey(entityType, entityId, timestamp), PrimaryValue(recordOffset));
      }
    }

    /** `search_primary`: the record offset stored under the key, or `prior` when there is none. */
    method SearchPrimary(entityType: u8, entityId: u64, timestamp: u64, prior: u64) returns (found: bool, recordOffset: u64)
      requires Valid()
      modifies primary
      ensures Valid()
      ensures primary == null ==> !found && recordOffset == prior
      ensures primary != null ==> primary.disk == old(primary.disk) && primary.meta == old(primary.meta)
      ensures primary != null && old(primary.Coherent()) ==>
        var f := BTree.Find(primary.disk, primary.meta.rootOffset, PrimaryKey(entityType, entityId, timestamp), |primary.disk.pages|);
        primary.Coherent() && found == f.Some? && recordOffset == if found then f.value.recordOffset else prior
    {
      found, recordOffset := false, prior;
      if primary != null {
        var value;
        found, value := primary.Search(PrimaryKey(entityType, entityId, timestamp), BTree.NoValue);
        if found {
          recordOffset := value.recordOffset;
        }
      }
    }

    /**
     * `range_query_primary`: the record offsets of the entries that
     * BTree.Range reports between the entity's keys for startTime and
     * endTime, in the order of its traversal. A leaf that follows its
     * next-leaf link is visited again as its parent's next child, so a
     * range that crosses a leaf boundary can report entries twice.
     */
    method RangeQueryPrimary(entityType: u8, entityId: u64, startTime: u64, endTime: u64) returns (offsets: seq<u64>)
      requires Valid()
      modifies primary
      ensures Valid()
      ensures primary == null ==> offsets == []
      ensures primary != null ==> primary.disk == old(primary.disk) && primary.meta == old(primary.meta)
      ensures primary != null && old(primary.Coherent()) ==>
        var lo, hi := RangeLow(entityType, entityId, startTime), RangeHigh(entityType, entityId, endTime);
        primary.Coherent() && offsets == RecordOffsets(BTree.Range(primary.disk, primary.meta.rootOffset, lo, hi, |primary.disk.pages|))
    {
      offsets := [];
      if primary != null {
        var results := primary.RangeQuery(RangeLow(entityType, entityId, startTime), RangeHigh(entityType, entityId, endTime));
        offsets := CollectOffsets(results);
      }
    }

    /** `insert_driver_email`: false without an e-mail tree. */
    method InsertDriverEmail(text: string, driverId: u64) returns (ok: bool)
      requires Valid()
      modifies email
      ensures Valid() && ok == (email != null)
      ensures ok ==>
        (email.file, email.meta) == BPlusTree.InsertTree(old(email.file), old(email.meta), BPlusTree.MakeKey(text), BPlusTree.BPlusValue(driverId, DriverEntity))
        && email.stream == Streams.AfterRead(old(email.stream))
    {
      ok := InsertKey(email, text, driverId, DriverEntity);
    }

    /** `search_by_email`: the driver id stored under the address, or `prior`. */
    method SearchByEmail(text: string, prior: u64) returns (found: bool, driverId: u64)
      requires Valid()
      modifies email
      ensures Valid()
      ensures email != null ==>
        email.stream == Streams.AfterRead(old(email.stream)) && unchanged(email`fileExists, email`diskMeta, email`file, email`meta)
      ensures email == null ==> !found && driverId == prior
      ensures email != null ==>
        var f := BPlusTree.Find(email.file, email.meta.rootOffset, BPlusTree.MakeKey(text), |email.file.pages|);
        found == f.Some? && driverId == if found then f.value.primaryId else prior
    {
      found, driverId := SearchKey(email, text, prior);
    }

    /** `insert_driver_username`: false without a username tree. */
    method InsertDriverUsername(text: string, driverId: u64) returns (ok: bool)
      requires Valid()
      modifies username
      ensures Valid() && ok == (username != null)
      ensures ok ==>
        (username.file, username.meta) == BPlusTree.InsertTree(old(username.file), old(username.meta), BPlusTree.MakeKey(text), BPlusTree.BPlusValue(driverId, DriverEntity))
        && username.stream == Streams.AfterRead(old(username.stream))
    {
      ok := InsertKey(username, text, driverId, DriverEntity);
    }

    /** `search_by_username`: the driver id stored under the username, or `prior`. */
    method SearchByUsername(text: string, prior: u64) returns (found: bool, driverId: u64)
      requires Valid()
      modifies username
      ensures Valid()
      ensures username != null ==>
        username.stream == Streams.AfterRead(old(username.stream)) && unchanged(username`fileExists, username`diskMeta, username`file, username`meta)
      ensures username == null ==> !found && driverId == prior
      ensures username != null ==>
        var f := BPlusTree.Find(username.file, username.meta.rootOffset, BPlusTree.MakeKey(text), |username.file.pages|);
        found == f.Some? && driverId == if found then f.value.primaryId else prior
    {
      found, driverId := SearchKey(username, text, prior);
    }

    /** `insert_vehicle_plate`: false without a plate tree. */
    method InsertVehiclePlate(text: string, vehicleId: u64) returns (ok: bool)
      requires Valid()
      modifies plate
      ensures Valid() && ok == (plate != null)
      ensures ok ==>
        (plate.file, plate.meta) == BPlusTree.InsertTree(old(plate.file), old(plate.meta), BPlusTree.MakeKey(text), BPlusTree.BPlusValue(vehicleId, VehicleEntity))
        && plate.stream == Streams.AfterRead(old(plate.stream))
    {
      ok := InsertKey(plate, text, vehicleId, VehicleEntity);
    }

    /** `search_by_plate`: the vehicle id stored under the plate, or `prior`. */
    method SearchByPlate(text: string, prior: u64) returns (found: bool, vehicleId: u64)
      requires Valid()
      modifies plate
      ensures Valid()
      ensures plate != null ==>
        plate.stream == Streams.AfterRead(old(plate.stream)) && unchanged(plate`fileExists, plate`diskMeta, plate`file, plate`meta)
      ensures plate == null ==> !found && vehicleId == prior
      ensures plate != null ==>
        var f := BPlusTree.Find(plate.file, plate.meta.rootOffset, BPlusTree.MakeKey(text), |plate.file.pages|);
        found == f.Some? && vehicleId == if found then f.value.primaryId else prior
    {
      found, vehicleId := SearchKey(plate, text, prior);
    }

    /**
     * `rebuild_driver_indexes`: each driver's e-mail and username go into
     * their trees, in order, whether or not they are there already; the
     * result is always true, even without the trees.
     */
    method RebuildDriverIndexes(drivers: seq<SdmTypes.DriverProfile>) returns (ok: bool)
      requires Valid() && forall i :: 0 <= i < |drivers| ==> drivers[i].driverId < Two64
      modifies email, username
      ensures Valid() && ok
      ensures email != null ==> (email.file, email.meta) == BPlusTree.InsertAll(old(email.file), old(email.meta), EmailEntries(drivers))
      ensures username != null ==>
        (username.file, username.meta) == BPlusTree.InsertAll(old(username.file), old(username.meta), UsernameEntries(drivers))
    {
      InsertDrivers(email, username, drivers);
      ok := true;
    }

    /** `rebuild_vehicle_indexes`: each vehicle's plate goes into the plate tree; the result is always true. */
    method RebuildVehicleIndexes(vehicles: seq<SdmTypes.VehicleInfo>) returns (ok: bool)
      requires Valid() && forall i :: 0 <= i < |vehicles| ==> vehicles[i].vehicleId < Two64
      modifies plate
      ensures Valid() && ok
      ensures plate != null ==> (plate.file, plate.meta) == BPlusTree.InsertAll(old(plate.file), old(plate.meta), PlateEntries(vehicles))
    {
      InsertVehicles(plate, vehicles);
      ok := true;
    }

    /** `get_primary_record_count`: 0 without a primary tree. */
    function PrimaryRecordCount(): u64
      reads this, primary
    {
      if primary == null then 0 else primary.meta.totalRecords
    }

    /** `get_driver_email_count`: 0 without an e-mail tree. */
    function DriverEmailCount(): u64
      reads this, email
    {
      if email == null then 0 else email.meta.totalEntries
    }

    /** `get_vehicle_plate_count`: 0 without a plate tree. */
    function VehiclePlateCount(): u64
      reads this, plate
    {
      if plate == null then 0 else plate.meta.totalEntries
    }
  }
}
