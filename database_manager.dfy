/**
 * The record heap: one file holding a 4096-byte header followed by seven
 * fixed-capacity tables of packed records. The file is modelled as its
 * header and one array per table (slot `i` of a table is the record at byte
 * `start + i * size`); the manager keeps its own copy of the header, the
 * table starts and an open flag. Every table operation is a linear scan over
 * the slots, proved equal to a function on the table's contents.
 */
module DatabaseManager {
  import opened Wrappers
  import opened Seqs
  import opened SdmTypes
  import Config

  // The file layout `calculate_offsets` computes.

  datatype Table = DriverTable | VehicleTable | TripTable | MaintenanceTable | ExpenseTable | DocumentTable | IncidentTable

  /** Position of a table in the file. */
  function Rank(t: Table): nat
  {
    match t
    case DriverTable => 0
    case VehicleTable => 1
    case TripTable => 2
    case MaintenanceTable => 3
    case ExpenseTable => 4
    case DocumentTable => 5
    case IncidentTable => 6
  }

  /** The table before `t`. */
  function Previous(t: Table): (r: Table)
    requires t != DriverTable
    ensures Rank(r) + 1 == Rank(t)
  {
    match t
    case VehicleTable => DriverTable
    case TripTable => VehicleTable
    case MaintenanceTable => TripTable
    case ExpenseTable => MaintenanceTable
    case DocumentTable => ExpenseTable
    case IncidentTable => DocumentTable
  }

  /** Number of slots: the header's three capacities, fixed counts for the other four tables. */
  function Capacity(h: SDMHeader, t: Table): nat
  {
    match t
    case DriverTable => h.maxDrivers
    case VehicleTable => h.maxVehicles
    case TripTable => h.maxTrips
    case MaintenanceTable => 100000
    case ExpenseTable => 500000
    case DocumentTable => 100000
    case IncidentTable => 50000
  }

  function RecordSize(t: Table): nat
  {
    match t
    case DriverTable => DriverSize
    case VehicleTable => VehicleSize
    case TripTable => TripSize
    case MaintenanceTable => MaintenanceSize
    case ExpenseTable => ExpenseSize
    case DocumentTable => DocumentSize
    case IncidentTable => IncidentSize
  }

  /** First byte of table `t`: right after the header, or right after the table before it. */
  function Start(h: SDMHeader, t: Table): nat
    decreases Rank(t), 0
  {
    if t == DriverTable then HeaderSize else TableEnd(h, Previous(t))
  }

  function TableEnd(h: SDMHeader, t: Table): nat
    decreases Rank(t), 1
  {
    Start(h, t) + Capacity(h, t) * RecordSize(t)
  }

  /** The seven table offsets of a header with the capacities of `h`. */
  function Layout(h: SDMHeader): TableOffsets
  {
    TableOffsets(
      Start(h, DriverTable), Start(h, VehicleTable), Start(h, TripTable), Start(h, MaintenanceTable),
      Start(h, ExpenseTable), Start(h, DocumentTable), Start(h, IncidentTable))
  }

  /** `total_size`: the end of the incident table. */
  function TotalSize(h: SDMHeader): nat
  {
    TableEnd(h, IncidentTable)
  }

  function SlotOffset(h: SDMHeader, t: Table, i: nat): nat
  {
    Start(h, t) + i * RecordSize(t)
  }

  /** Each table ends at or before any later table starts. */
  lemma {:induction false} TablesOrdered(h: SDMHeader, t1: Table, t2: Table)
    requires Rank(t1) < Rank(t2)
    ensures TableEnd(h, t1) <= Start(h, t2)
    decreases Rank(t2)
  {
    var p := Previous(t2);
    if p != t1 {
      TablesOrdered(h, t1, p);
    }
  }

  lemma {:induction false} MulStep(i: nat, n: nat, c: nat)
    requires i < n
    ensures i * c + c <= n * c
    decreases n - i
  {
    assert (i + 1) * c == i * c + c;
    if i + 1 < n {
      MulStep(i + 1, n, c);
    }
  }

  /** A slot lies inside its own table. */
  lemma SlotInTable(h: SDMHeader, t: Table, i: nat)
    requires i < Capacity(h, t)
    ensures Start(h, t) <= SlotOffset(h, t, i) && SlotOffset(h, t, i) + RecordSize(t) <= TableEnd(h, t)
  {
    MulStep(i, Capacity(h, t), RecordSize(t));
  }

  /** Every slot of every table lies between the header and `total_size`. */
  lemma SlotInFile(h: SDMHeader, t: Table, i: nat)
    requires i < Capacity(h, t)
    ensures HeaderSize <= SlotOffset(h, t, i)
    ensures SlotOffset(h, t, i) + RecordSize(t) <= TotalSize(h)
  {
    SlotInTable(h, t, i);
    if t != DriverTable {
      TablesOrdered(h, DriverTable, t);
    }
    if t != IncidentTable {
      TablesOrdered(h, t, IncidentTable);
    }
  }

  /** Slots of one table follow each other without overlap. */
  lemma SameTableDisjoint(h: SDMHeader, t: Table, i1: nat, i2: nat)
    requires i1 < i2
    ensures SlotOffset(h, t, i1) + RecordSize(t) <= SlotOffset(h, t, i2)
  {
    MulStep(i1, i2, RecordSize(t));
  }

  /** A slot of an earlier table ends before any slot of a later one starts. */
  lemma LaterTableDisjoint(h: SDMHeader, t1: Table, i1: nat, t2: Table, i2: nat)
    requires Rank(t1) < Rank(t2) && i1 < Capacity(h, t1)
    ensures SlotOffset(h, t1, i1) + RecordSize(t1) <= SlotOffset(h, t2, i2)
  {
    SlotInTable(h, t1, i1);
    TablesOrdered(h, t1, t2);
  }

  /** Two different slots never share a byte. */
  lemma SlotsDisjoint(h: SDMHeader, t1: Table, i1: nat, t2: Table, i2: nat)
    requires i1 < Capacity(h, t1) && i2 < Capacity(h, t2)
    requires t1 != t2 || i1 != i2
    ensures SlotOffset(h, t1, i1) + RecordSize(t1) <= SlotOffset(h, t2, i2)
         || SlotOffset(h, t2, i2) + RecordSize(t2) <= SlotOffset(h, t1, i1)
  {
    if t1 == t2 && i1 < i2 {
      SameTableDisjoint(h, t1, i1, i2);
    } else if t1 == t2 {
      SameTableDisjoint(h, t1, i2, i1);
    } else if Rank(t1) < Rank(t2) {
      LaterTableDisjoint(h, t1, i1, t2, i2);
    } else {
      LaterTableDisjoint(h, t2, i2, t1, i1);
    }
  }

  /** The file size in closed form. */
  lemma TotalSizeIs(h: SDMHeader)
    ensures TotalSize(h) == HeaderSize + 1024 * (h.maxDrivers + h.maxVehicles + h.maxTrips) + 1024 * 700000 + 2048 * 50000
  {
    assert Start(h, VehicleTable) == HeaderSize + 1024 * h.maxDrivers;
    assert Start(h, TripTable) == Start(h, VehicleTable) + 1024 * h.maxVehicles;
    assert Start(h, MaintenanceTable) == Start(h, TripTable) + 1024 * h.maxTrips;
    assert Start(h, ExpenseTable) == Start(h, MaintenanceTable) + 1024 * 100000;
    assert Start(h, DocumentTable) == Start(h, ExpenseTable) + 1024 * 500000;
    assert Start(h, IncidentTable) == Start(h, DocumentTable) + 1024 * 100000;
  }

  /** With 32-bit capacities the 64-bit running offset never wraps. */
  lemma NoWrap(h: SDMHeader)
    requires h.maxDrivers < 0x1_0000_0000 && h.maxVehicles < 0x1_0000_0000 && h.maxTrips < 0x1_0000_0000
    ensures TotalSize(h) < 0x1_0000_0000_0000_0000
  {
    TotalSizeIs(h);
  }

  /** The default capacities give a file of 11120644096 bytes. */
  lemma DefaultTotalSize()
    ensures TotalSize(DefaultHeader) == 11120644096
  {
    TotalSizeIs(DefaultHeader);
  }

  /** A header describing a file `create` wrote: its offsets and size follow from its capacities. */
  predicate Formatted(h: SDMHeader)
  {
    h.offsets == Layout(h) && h.totalSize == TotalSize(h)
  }

  /** `h` with the offsets and size `calculate_offsets` gives its capacities. */
  function WithLayout(h: SDMHeader): SDMHeader
  {
    h.(offsets := Layout(h), totalSize := TotalSize(h))
  }

  /** The header `create` fills in before laying out the tables: a default header with the time and the configured capacities. */
  function CreatedHeader(db: Config.DatabaseSettings, now: nat): SDMHeader
  {
    DefaultHeader.(createdTime := now, lastModified := now,
      maxDrivers := db.maxDrivers, maxVehicles := db.maxVehicles, maxTrips := db.maxTrips)
  }

  /** The header `create` writes. */
  function NewHeader(db: Config.DatabaseSettings, now: nat): (h: SDMHeader)
    ensures Formatted(h) && h.magic == DbMagic
    ensures h.maxDrivers == db.maxDrivers && h.maxVehicles == db.maxVehicles && h.maxTrips == db.maxTrips
    ensures h.createdTime == now && h.lastModified == now
  {
    WithLayout(CreatedHeader(db, now))
  }

  // Slot predicates: which records count as free, live or matching.

  predicate FreeDriver(d: DriverProfile) { d.isActive == 0 }
  predicate ActiveDriver(d: DriverProfile) { d.isActive == 1 }
  function LiveDriver(id: nat): DriverProfile -> bool { (d: DriverProfile) => d.isActive == 1 && d.driverId == id }
  function Deactivated(d: DriverProfile): DriverProfile { d.(isActive := 0) }

  predicate FreeVehicle(v: VehicleInfo) { v.isActive == 0 }
  predicate ActiveVehicle(v: VehicleInfo) { v.isActive == 1 }
  function LiveVehicle(id: nat): VehicleInfo -> bool { (v: VehicleInfo) => v.isActive == 1 && v.vehicleId == id }
  function OwnedVehicle(owner: nat): VehicleInfo -> bool { (v: VehicleInfo) => v.isActive == 1 && v.ownerDriverId == owner }
  function DeactivatedVehicle(v: VehicleInfo): VehicleInfo { v.(isActive := 0) }

  predicate FreeTrip(t: TripRecord) { t.tripId == 0 }
  predicate StoredTrip(t: TripRecord) { t.tripId != 0 }
  function TripWithId(id: nat): TripRecord -> bool { (t: TripRecord) => t.tripId == id }
  function DriverTrip(driverId: nat): TripRecord -> bool { (t: TripRecord) => t.tripId != 0 && t.driverId == driverId }

  predicate FreeMaintenance(m: MaintenanceRecord) { m.maintenanceId == 0 }
  function VehicleMaintenance(vehicleId: nat): MaintenanceRecord -> bool { (m: MaintenanceRecord) => m.maintenanceId != 0 && m.vehicleId == vehicleId }

  predicate FreeExpense(e: ExpenseRecord) { e.expenseId == 0 }
  function DriverExpense(driverId: nat): ExpenseRecord -> bool { (e: ExpenseRecord) => e.expenseId != 0 && e.driverId == driverId }
  function DriverExpenseIn(driverId: nat, category: ExpenseCategory): ExpenseRecord -> bool
  {
    (e: ExpenseRecord) => e.expenseId != 0 && e.driverId == driverId && e.category == category
  }

  /** The record a first-match scan stops at. */
  function FirstMatch<T>(s: seq<T>, p: T -> bool): (r: Option<T>)
    ensures r.Some? <==> exists i :: 0 <= i < |s| && p(s[i])
    ensures r.Some? ==> p(r.value) && r.value in s
  {
    match FirstIndex(s, p)
    case None => None
    case Some(k) => Some(s[k])
  }

  /** A table after writing `x` into the first slot that satisfies `p`, if there is one. */
  function PutFirst<T>(s: seq<T>, p: T -> bool, x: T): (r: seq<T>)
    ensures |r| == |s|
    ensures FirstIndex(s, p).None? ==> r == s
    ensures FirstIndex(s, p).Some? ==>
      var k := FirstIndex(s, p).value;
      r[k] == x && forall j :: 0 <= j < |s| && j != k ==> r[j] == s[j]
  {
    match FirstIndex(s, p)
    case None => s
    case Some(k) => s[k := x]
  }

  /** A table after rewriting the first slot that satisfies `p` with `f`, if there is one. */
  function ApplyFirst<T>(s: seq<T>, p: T -> bool, f: T -> T): (r: seq<T>)
    ensures |r| == |s|
    ensures FirstIndex(s, p).None? ==> r == s
    ensures FirstIndex(s, p).Some? ==>
      var k := FirstIndex(s, p).value;
      r[k] == f(s[k]) && forall j :: 0 <= j < |s| && j != k ==> r[j] == s[j]
  {
    match FirstIndex(s, p)
    case None => s
    case Some(k) => s[k := f(s[k])]
  }

  /** Two predicates that agree on every slot stop a scan at the same slot. */
  lemma {:induction false} FirstIndexAgree<T>(s: seq<T>, p: T -> bool, q: T -> bool)
    requires forall i :: 0 <= i < |s| ==> p(s[i]) == q(s[i])
    ensures FirstIndex(s, p) == FirstIndex(s, q)
  {
    if s != [] && !p(s[0]) {
      FirstIndexAgree(s[1..], p, q);
    }
  }

  /** Writing a matching record where nothing matched makes the next scan find it. */
  lemma FindAfterPut<T>(s: seq<T>, p: T -> bool, q: T -> bool, x: T)
    requires FirstIndex(s, p).Some? && q(x)
    requires forall j :: 0 <= j < |s| ==> !q(s[j])
    ensures FirstMatch(PutFirst(s, p, x), q) == Some(x)
  {
    var k := FirstIndex(s, p).value;
    var r := PutFirst(s, p, x);
    FirstIndexAt(r, q, k);
  }

  /** Overwriting the first match with a record that still matches makes the next scan return it. */
  lemma FindAfterOverwrite<T>(s: seq<T>, q: T -> bool, x: T)
    requires FirstIndex(s, q).Some? && q(x)
    ensures FirstMatch(PutFirst(s, q, x), q) == Some(x)
  {
    var k := FirstIndex(s, q).value;
    FirstIndexAt(PutFirst(s, q, x), q, k);
  }

  /** With at most one match, rewriting it into a non-match leaves nothing to find. */
  lemma NoneAfterRewrite<T>(s: seq<T>, q: T -> bool, f: T -> T)
    requires forall i, j :: 0 <= i < j < |s| && q(s[i]) ==> !q(s[j])
    requires forall y :: !q(f(y))
    ensures FirstMatch(ApplyFirst(s, q, f), q).None?
  {
    var r := ApplyFirst(s, q, f);
    if FirstIndex(s, q).Some? {
      var k := FirstIndex(s, q).value;
      forall j | 0 <= j < |r|
        ensures !q(r[j])
      {
        if j < k {
          assert r[j] == s[j];
        } else if j > k {
          assert r[j] == s[j];
          assert !q(s[j]);
        }
      }
    }
  }

  /** How one slot's new record moves a count. */
  lemma CountUpdate<T>(s: seq<T>, k: nat, x: T, c: T -> bool)
    requires k < |s|
    ensures Count(s[k := x], c) + (if c(s[k]) then 1 else 0) == Count(s, c) + (if c(x) then 1 else 0)
  {
    var a, b := s[..k], s[k + 1..];
    assert s == a + [s[k]] + b;
    assert s[k := x] == a + [x] + b;
    FilterAppend(a + [s[k]], b, c);
    FilterAppend(a + [x], b, c);
    FilterSnoc(a, s[k], c);
    FilterSnoc(a, x, c);
  }

  // What the driver and trip operations promise, in terms of the tables.

  /** A driver stored where no live driver had its id is what the next read of that id returns. */
  lemma CreateThenReadDriver(s: seq<DriverProfile>, d: DriverProfile)
    requires FirstIndex(s, FreeDriver).Some? && d.isActive == 1
    requires FirstMatch(s, LiveDriver(d.driverId)).None?
    ensures FirstMatch(PutFirst(s, FreeDriver, d), LiveDriver(d.driverId)) == Some(d)
  {
    FindAfterPut(s, FreeDriver, LiveDriver(d.driverId), d);
  }

  /** An active driver written by update is what the next read of its id returns. */
  lemma UpdateThenReadDriver(s: seq<DriverProfile>, d: DriverProfile)
    requires FirstIndex(s, LiveDriver(d.driverId)).Some? && d.isActive == 1
    ensures FirstMatch(PutFirst(s, LiveDriver(d.driverId), d), LiveDriver(d.driverId)) == Some(d)
  {
    FindAfterOverwrite(s, LiveDriver(d.driverId), d);
  }

  /** When ids are unique among live drivers, a deleted driver can no longer be read. */
  lemma DeleteThenReadDriver(s: seq<DriverProfile>, id: nat)
    requires forall i, j :: 0 <= i < j < |s| && LiveDriver(id)(s[i]) ==> !LiveDriver(id)(s[j])
    ensures FirstMatch(ApplyFirst(s, LiveDriver(id), Deactivated), LiveDriver(id)).None?
  {
    NoneAfterRewrite(s, LiveDriver(id), Deactivated);
  }

  /** Deletion is a soft delete: only the liveness byte of the deleted slot changes. */
  lemma DeleteKeepsRecord(s: seq<DriverProfile>, id: nat)
    requires FirstIndex(s, LiveDriver(id)).Some?
    ensures var k := FirstIndex(s, LiveDriver(id)).value;
      var r := ApplyFirst(s, LiveDriver(id), Deactivated);
      r[k].isActive == 0 && r[k].(isActive := 1) == s[k]
  {
  }

  /** A successful create of an active driver adds one to the active count; a delete takes one off. */
  lemma ActiveCountMoves(s: seq<DriverProfile>, d: DriverProfile, id: nat)
    ensures FirstIndex(s, FreeDriver).Some? && d.isActive == 1 ==>
      Count(PutFirst(s, FreeDriver, d), ActiveDriver) == Count(s, ActiveDriver) + 1
    ensures FirstIndex(s, LiveDriver(id)).Some? ==>
      Count(ApplyFirst(s, LiveDriver(id), Deactivated), ActiveDriver) + 1 == Count(s, ActiveDriver)
  {
    if FirstIndex(s, FreeDriver).Some? {
      var k := FirstIndex(s, FreeDriver).value;
      CountUpdate(s, k, d, ActiveDriver);
    }
    if FirstIndex(s, LiveDriver(id)).Some? {
      var k := FirstIndex(s, LiveDriver(id)).value;
      CountUpdate(s, k, Deactivated(s[k]), ActiveDriver);
    }
  }

  /**
   * Trip lookups match on the id alone, and a free slot has id 0: reading
   * trip 0 returns the first free slot when there is one, and updating a trip
   * whose id is 0 fills that slot exactly as `create_trip` would.
   */
  lemma TripIdZeroIsFreeSlot(s: seq<TripRecord>, t: TripRecord)
    ensures FirstMatch(s, TripWithId(0)) == FirstMatch(s, FreeTrip)
    ensures FirstMatch(s, TripWithId(0)).Some? <==> FirstIndex(s, FreeTrip).Some?
    ensures PutFirst(s, TripWithId(0), t) == PutFirst(s, FreeTrip, t)
  {
    FirstIndexAgree(s, TripWithId(0), FreeTrip);
  }

  // The scans shared by every table operation.

  /** Index of the first of the first `n` slots that satisfies `p`. */
  method FindSlot<T>(a: array<T>, n: nat, p: T -> bool) returns (r: Option<nat>)
    requires n <= a.Length
    ensures r == FirstIndex(a[..n], p)
  {
    var i := 0;
    while i < n
      invariant 0 <= i <= n
      invariant forall j :: 0 <= j < i ==> !p(a[..n][j])
    {
      if p(a[i]) {
        assert a[..n][i] == a[i];
        FirstIndexAt(a[..n], p, i);
        return Some(i);
      }
      i := i + 1;
    }
    return None;
  }

  /** Every record among the first `n` slots that satisfies `p`, in slot order. */
  method CollectSlots<T>(a: array<T>, n: nat, p: T -> bool) returns (r: seq<T>)
    requires n <= a.Length
    ensures r == Filter(a[..n], p)
  {
    r := [];
    for i := 0 to n
      invariant r == Filter(a[..i], p)
    {
      assert a[..i + 1] == a[..i] + [a[i]];
      FilterSnoc(a[..i], a[i], p);
      if p(a[i]) {
        r := r + [a[i]];
      }
    }
  }

  /** The first `limit` records among the first `n` slots that satisfy `p`; the scan stops once it has them. */
  method CollectFirstSlots<T>(a: array<T>, n: nat, p: T -> bool, limit: int) returns (r: seq<T>)
    requires n <= a.Length
    ensures r == Take(Filter(a[..n], p), limit)
  {
    r := [];
    var count := 0;
    var i := 0;
    while i < n && count < limit
      invariant 0 <= i <= n
      invariant r == Filter(a[..i], p) && count == |r|
      invariant count == 0 || count <= limit
    {
      assert a[..i + 1] == a[..i] + [a[i]];
      FilterSnoc(a[..i], a[i], p);
      if p(a[i]) {
        r := r + [a[i]];
        count := count + 1;
      }
      i := i + 1;
    }
    FilterPrefix(a[..n], i, p);
    assert a[..n][..i] == a[..i];
  }

  /** How many of the first `n` slots satisfy `p`. */
  method CountSlots<T>(a: array<T>, n: nat, p: T -> bool) returns (c: nat)
    requires n <= a.Length
    ensures c == Count(a[..n], p)
  {
    var r := CollectSlots(a, n, p);
    c := |r|;
  }

  /** A driver slot the way `create` initialises it: a default driver marked free. */
  const EmptyDriver := DefaultDriver.(isActive := 0)
  const EmptyVehicle := DefaultVehicle.(isActive := 0)

  /**
   * The database file: its header and its seven tables. A file object never
   * changes its tables' lengths; `create` writes a new one.
   */
  class DatabaseFile {
    var header: SDMHeader
    const drivers: array<DriverProfile>
    const vehicles: array<VehicleInfo>
    const trips: array<TripRecord>
    const maintenance: array<MaintenanceRecord>
    const expenses: array<ExpenseRecord>
    const documents: array<DocumentMetadata>
    const incidents: array<IncidentReport>

    /** The tables have the lengths the header gives them. */
    ghost predicate Sized()
      reads this
    {
      drivers.Length == header.maxDrivers && vehicles.Length == header.maxVehicles && trips.Length == header.maxTrips
      && maintenance.Length == 100000 && expenses.Length == 500000
      && documents.Length == 100000 && incidents.Length == 50000
    }

    /** Every slot holds the record `create` writes there. */
    ghost predicate Blank()
      reads drivers, vehicles, trips, maintenance, expenses, documents, incidents
    {
      (forall i :: 0 <= i < drivers.Length ==> drivers[i] == EmptyDriver)
      && (forall i :: 0 <= i < vehicles.Length ==> vehicles[i] == EmptyVehicle)
      && (forall i :: 0 <= i < trips.Length ==> trips[i] == DefaultTrip)
      && (forall i :: 0 <= i < maintenance.Length ==> maintenance[i] == DefaultMaintenance)
      && (forall i :: 0 <= i < expenses.Length ==> expenses[i] == DefaultExpense)
      && (forall i :: 0 <= i < documents.Length ==> documents[i] == DefaultDocument)
      && (forall i :: 0 <= i < incidents.Length ==> incidents[i] == DefaultIncident)
    }

    /** A file already on disk. */
    constructor(header: SDMHeader, drivers: array<DriverProfile>, vehicles: array<VehicleInfo>,
                trips: array<TripRecord>, maintenance: array<MaintenanceRecord>, expenses: array<ExpenseRecord>,
                documents: array<DocumentMetadata>, incidents: array<IncidentReport>)
      ensures this.header == header && this.drivers == drivers && this.vehicles == vehicles
      ensures this.trips == trips && this.maintenance == maintenance && this.expenses == expenses
      ensures this.documents == documents && this.incidents == incidents
    {
      this.header := header;
      this.drivers := drivers;
      this.vehicles := vehicles;
      this.trips := trips;
      this.maintenance := maintenance;
      this.expenses := expenses;
      this.documents := documents;
      this.incidents := incidents;
    }

    /** The file `create` writes: the header, then every slot of every table empty. */
    constructor Formatted(h: SDMHeader)
      ensures header == h && Sized() && Blank()
      ensures fresh(drivers) && fresh(vehicles) && fresh(trips) && fresh(maintenance)
      ensures fresh(expenses) && fresh(documents) && fresh(incidents)
    {
      header := h;
      drivers := new DriverProfile[h.maxDrivers](_ => EmptyDriver);
      vehicles := new VehicleInfo[h.maxVehicles](_ => EmptyVehicle);
      trips := new TripRecord[h.maxTrips](_ => DefaultTrip);
      maintenance := new MaintenanceRecord[100000](_ => DefaultMaintenance);
      expenses := new ExpenseRecord[500000](_ => DefaultExpense);
      documents := new DocumentMetadata[100000](_ => DefaultDocument);
      incidents := new IncidentReport[50000](_ => DefaultIncident);
    }
  }

  class DatabaseManager {
    // The file, when it exists.
    var fileExists: bool
    var file: DatabaseFile

    // The manager: its copy of the header, the table starts and the open flag.
    var header: SDMHeader
    var starts: TableOffsets
    var isOpen: bool

    /** An existing file has the tables its header sizes; an open manager holds its header and offsets. */
    ghost predicate Valid()
      reads this, file
    {
      (fileExists ==> file.Sized())
      && (isOpen ==> fileExists && header == file.header && starts == file.header.offsets)
    }

    /** `DatabaseManager(filename)`, for a file in the given state. */
    constructor(fileExists: bool, file: DatabaseFile)
      requires fileExists ==> file.Sized()
      ensures Valid() && !isOpen && header == DefaultHeader
      ensures this.fileExists == fileExists && this.file == file
    {
      this.fileExists := fileExists;
      this.file := file;
      header := DefaultHeader;
      starts := TableOffsets(0, 0, 0, 0, 0, 0, 0);
      isOpen := false;
    }

    /** `calculate_offsets`: lays the tables out one after another behind the header. */
    method CalculateOffsets()
      modifies this
      ensures header == WithLayout(old(header))
      ensures starts == Layout(old(header))
      ensures fileExists == old(fileExists) && file == old(file) && isOpen == old(isOpen)
    {
      var current := HeaderSize;
      var driver := current;
      current := current + header.maxDrivers * DriverSize;
      var vehicle := current;
      current := current + header.maxVehicles * VehicleSize;
      var trip := current;
      current := current + header.maxTrips * TripSize;
      var maint := current;
      current := current + 100000 * MaintenanceSize;
      var expense := current;
      current := current + 500000 * ExpenseSize;
      var document := current;
      current := current + 100000 * DocumentSize;
      var incident := current;
      current := current + 50000 * IncidentSize;
      starts := TableOffsets(driver, vehicle, trip, maint, expense, document, incident);
      header := header.(offsets := starts, totalSize := current);
    }

    /**
     * `create`: writes a fresh header and every slot of every table. It
     * leaves the database closed; the file is written only when it can be
     * opened for writing.
     */
    method Create(config: Config.Settings, canCreate: bool, now: nat) returns (ok: bool)
      requires Valid() && !isOpen
      modifies this
      ensures Valid() && !isOpen && ok == canCreate
      ensures ok ==> fileExists && fresh(file) && file.header == header && header == NewHeader(config.database, now)
      ensures ok ==> starts == header.offsets && file.Blank()
      ensures !ok ==> header == old(header) && starts == old(starts) && fileExists == old(fileExists) && file == old(file)
    {
      if !canCreate {
        return false;
      }
      header := CreatedHeader(config.database, now);
      CalculateOffsets();
      file := new DatabaseFile.Formatted(header);
      fileExists := true;
      return true;
    }

    /** `open`: reads the header back and accepts it only with the right magic. */
    method Open() returns (ok: bool)
      requires Valid() && !isOpen
      modifies this
      ensures Valid()
      ensures ok == (fileExists && file.header.magic == DbMagic) && isOpen == ok
      ensures header == if fileExists then file.header else old(header)
      ensures starts == if ok then file.header.offsets else old(starts)
      ensures fileExists == old(fileExists) && file == old(file)
    {
      if !fileExists {
        return false;
      }
      header := file.header;
      if header.magic != DbMagic {
        return false;
      }
      starts := header.offsets;
      isOpen := true;
      return true;
    }

    /** `close`: stamps the header with the time and writes it back. */
    method Close(now: nat)
      requires Valid()
      modifies this, file
      ensures Valid() && !isOpen
      ensures header == if old(isOpen) then old(header).(lastModified := now) else old(header)
      ensures file.header == if old(isOpen) then header else old(file.header)
      ensures starts == old(starts) && fileExists == old(fileExists) && file == old(file)
    {
      if isOpen {
        header := header.(lastModified := now);
        file.header := header;
        isOpen := false;
      }
    }

    // Drivers.

    /** `create_driver`: stores the record in the first free slot. */
    method CreateDriver(driver: DriverProfile) returns (ok: bool)
      requires Valid()
      modifies file.drivers
      ensures ok == (isOpen && FirstIndex(old(file.drivers[..]), FreeDriver).Some?)
      ensures file.drivers[..] == if isOpen then PutFirst(old(file.drivers[..]), FreeDriver, driver) else old(file.drivers[..])
    {
      if !isOpen {
        return false;
      }
      assert file.drivers[..header.maxDrivers] == file.drivers[..];
      var slot := FindSlot(file.drivers, header.maxDrivers, FreeDriver);
      if slot.None? {
        return false;
      }
      file.drivers[slot.value] := driver;
      return true;
    }

    /** `read_driver`: the first live driver with that id. */
    method ReadDriver(driverId: nat) returns (r: Option<DriverProfile>)
      requires Valid()
      ensures r == if isOpen then FirstMatch(file.drivers[..], LiveDriver(driverId)) else None
    {
      if !isOpen {
        return None;
      }
      assert file.drivers[..header.maxDrivers] == file.drivers[..];
      var slot := FindSlot(file.drivers, header.maxDrivers, LiveDriver(driverId));
      if slot.None? {
        return None;
      }
      return Some(file.drivers[slot.value]);
    }

    /** `update_driver`: overwrites the first live driver with the record's id. */
    method UpdateDriver(driver: DriverProfile) returns (ok: bool)
      requires Valid()
      modifies file.drivers
      ensures ok == (isOpen && FirstIndex(old(file.drivers[..]), LiveDriver(driver.driverId)).Some?)
      ensures file.drivers[..] == if isOpen then PutFirst(old(file.drivers[..]), LiveDriver(driver.driverId), driver) else old(file.drivers[..])
    {
      if !isOpen {
        return false;
      }
      assert file.drivers[..header.maxDrivers] == file.drivers[..];
      var slot := FindSlot(file.drivers, header.maxDrivers, LiveDriver(driver.driverId));
      if slot.None? {
        return false;
      }
      file.drivers[slot.value] := driver;
      return true;
    }

    /** `delete_driver`: clears the liveness byte of the first live driver with that id. */
    method DeleteDriver(driverId: nat) returns (ok: bool)
      requires Valid()
      modifies file.drivers
      ensures ok == (isOpen && FirstIndex(old(file.drivers[..]), LiveDriver(driverId)).Some?)
      ensures file.drivers[..] == if isOpen then ApplyFirst(old(file.drivers[..]), LiveDriver(driverId), Deactivated) else old(file.drivers[..])
    {
      if !isOpen {
        return false;
      }
      assert file.drivers[..header.maxDrivers] == file.drivers[..];
      var slot := FindSlot(file.drivers, header.maxDrivers, LiveDriver(driverId));
      if slot.None? {
        return false;
      }
      file.drivers[slot.value] := Deactivated(file.drivers[slot.value]);
      return true;
    }

    /** `get_all_drivers`: every active driver in slot order. */
    method GetAllDrivers() returns (r: seq<DriverProfile>)
      requires Valid()
      ensures r == if isOpen then Filter(file.drivers[..], ActiveDriver) else []
    {
      if !isOpen {
        return [];
      }
      assert file.drivers[..header.maxDrivers] == file.drivers[..];
      r := CollectSlots(file.drivers, header.maxDrivers, ActiveDriver);
    }

    // Vehicles.

    /** `create_vehicle`: stores the record in the first free slot. */
    method CreateVehicle(vehicle: VehicleInfo) returns (ok: bool)
      requires Valid()
      modifies file.vehicles
      ensures ok == (isOpen && FirstIndex(old(file.vehicles[..]), FreeVehicle).Some?)
      ensures file.vehicles[..] == if isOpen then PutFirst(old(file.vehicles[..]), FreeVehicle, vehicle) else old(file.vehicles[..])
    {
      if !isOpen {
        return false;
      }
      assert file.vehicles[..header.maxVehicles] == file.vehicles[..];
      var slot := FindSlot(file.vehicles, header.maxVehicles, FreeVehicle);
      if slot.None? {
        return false;
      }
      file.vehicles[slot.value] := vehicle;
      return true;
    }

    /** `read_vehicle`: the first live vehicle with that id. */
    method ReadVehicle(vehicleId: nat) returns (r: Option<VehicleInfo>)
      requires Valid()
      ensures r == if isOpen then FirstMatch(file.vehicles[..], LiveVehicle(vehicleId)) else None
    {
      if !isOpen {
        return None;
      }
      assert file.vehicles[..header.maxVehicles] == file.vehicles[..];
      var slot := FindSlot(file.vehicles, header.maxVehicles, LiveVehicle(vehicleId));
      if slot.None? {
        return None;
      }
      return Some(file.vehicles[slot.value]);
    }

    /** `update_vehicle`: overwrites the first live vehicle with the record's id. */
    method UpdateVehicle(vehicle: VehicleInfo) returns (ok: bool)
      requires Valid()
      modifies file.vehicles
      ensures ok == (isOpen && FirstIndex(old(file.vehicles[..]), LiveVehicle(vehicle.vehicleId)).Some?)
      ensures file.vehicles[..] == if isOpen then PutFirst(old(file.vehicles[..]), LiveVehicle(vehicle.vehicleId), vehicle) else old(file.vehicles[..])
    {
      if !isOpen {
        return false;
      }
      assert file.vehicles[..header.maxVehicles] == file.vehicles[..];
      var slot := FindSlot(file.vehicles, header.maxVehicles, LiveVehicle(vehicle.vehicleId));
      if slot.None? {
        return false;
      }
      file.vehicles[slot.value] := vehicle;
      return true;
    }

    /** `delete_vehicle`: clears the liveness byte of the first live vehicle with that id. */
    method DeleteVehicle(vehicleId: nat) returns (ok: bool)
      requires Valid()
      modifies file.vehicles
      ensures ok == (isOpen && FirstIndex(old(file.vehicles[..]), LiveVehicle(vehicleId)).Some?)
      ensures file.vehicles[..] == if isOpen then ApplyFirst(old(file.vehicles[..]), LiveVehicle(vehicleId), DeactivatedVehicle) else old(file.vehicles[..])
    {
      if !isOpen {
        return false;
      }
      assert file.vehicles[..header.maxVehicles] == file.vehicles[..];
      var slot := FindSlot(file.vehicles, header.maxVehicles, LiveVehicle(vehicleId));
      if slot.None? {
        return false;
      }
      file.vehicles[slot.value] := DeactivatedVehicle(file.vehicles[slot.value]);
      return true;
    }

    /** `get_vehicles_by_owner`: every active vehicle of that owner in slot order. */
    method GetVehiclesByOwner(ownerId: nat) returns (r: seq<VehicleInfo>)
      requires Valid()
      ensures r == if isOpen then Filter(file.vehicles[..], OwnedVehicle(ownerId)) else []
    {
      if !isOpen {
        return [];
      }
      assert file.vehicles[..header.maxVehicles] == file.vehicles[..];
      r := CollectSlots(file.vehicles, header.maxVehicles, OwnedVehicle(ownerId));
    }

    // Trips.

    /** `create_trip`: stores the record in the first slot with id 0. */
    method CreateTrip(trip: TripRecord) returns (ok: bool)
      requires Valid()
      modifies file.trips
      ensures ok == (isOpen && FirstIndex(old(file.trips[..]), FreeTrip).Some?)
      ensures file.trips[..] == if isOpen then PutFirst(old(file.trips[..]), FreeTrip, trip) else old(file.trips[..])
    {
      if !isOpen {
        return false;
      }
      assert file.trips[..header.maxTrips] == file.trips[..];
      var slot := FindSlot(file.trips, header.maxTrips, FreeTrip);
      if slot.None? {
        return false;
      }
      file.trips[slot.value] := trip;
      return true;
    }

    /** `read_trip`: the first slot with that id, free or not. */
    method ReadTrip(tripId: nat) returns (r: Option<TripRecord>)
      requires Valid()
      ensures r == if isOpen then FirstMatch(file.trips[..], TripWithId(tripId)) else None
    {
      if !isOpen {
        return None;
      }
      assert file.trips[..header.maxTrips] == file.trips[..];
      var slot := FindSlot(file.trips, header.maxTrips, TripWithId(tripId));
      if slot.None? {
        return None;
      }
      return Some(file.trips[slot.value]);
    }

    /** `update_trip`: overwrites the first slot with the record's id. */
    method UpdateTrip(trip: TripRecord) returns (ok: bool)
      requires Valid()
      modifies file.trips
      ensures ok == (isOpen && FirstIndex(old(file.trips[..]), TripWithId(trip.tripId)).Some?)
      ensures file.trips[..] == if isOpen then PutFirst(old(file.trips[..]), TripWithId(trip.tripId), trip) else old(file.trips[..])
    {
      if !isOpen {
        return false;
      }
      assert file.trips[..header.maxTrips] == file.trips[..];
      var slot := FindSlot(file.trips, header.maxTrips, TripWithId(trip.tripId));
      if slot.None? {
        return false;
      }
      file.trips[slot.value] := trip;
      return true;
    }

    /** `get_trips_by_driver`: the driver's first `limit` stored trips in slot order. */
    method GetTripsByDriver(driverId: nat, limit: int := 100) returns (r: seq<TripRecord>)
      requires Valid()
      ensures r == if isOpen then Take(Filter(file.trips[..], DriverTrip(driverId)), limit) else []
    {
      if !isOpen {
        return [];
      }
      assert file.trips[..header.maxTrips] == file.trips[..];
      r := CollectFirstSlots(file.trips, header.maxTrips, DriverTrip(driverId), limit);
    }

    // Maintenance and expenses.

    /** `create_maintenance`: stores the record in the first slot with id 0. */
    method CreateMaintenance(record: MaintenanceRecord) returns (ok: bool)
      requires Valid()
      modifies file.maintenance
      ensures ok == (isOpen && FirstIndex(old(file.maintenance[..]), FreeMaintenance).Some?)
      ensures file.maintenance[..] == if isOpen then PutFirst(old(file.maintenance[..]), FreeMaintenance, record) else old(file.maintenance[..])
    {
      if !isOpen {
        return false;
      }
      assert file.maintenance[..100000] == file.maintenance[..];
      var slot := FindSlot(file.maintenance, 100000, FreeMaintenance);
      if slot.None? {
        return false;
      }
      file.maintenance[slot.value] := record;
      return true;
    }

    /** `get_maintenance_by_vehicle`: every stored record of that vehicle in slot order. */
    method GetMaintenanceByVehicle(vehicleId: nat) returns (r: seq<MaintenanceRecord>)
      requires Valid()
      ensures r == if isOpen then Filter(file.maintenance[..], VehicleMaintenance(vehicleId)) else []
    {
      if !isOpen {
        return [];
      }
      assert file.maintenance[..100000] == file.maintenance[..];
      r := CollectSlots(file.maintenance, 100000, VehicleMaintenance(vehicleId));
    }

    /** `create_expense`: stores the record in the first slot with id 0. */
    method CreateExpense(expense: ExpenseRecord) returns (ok: bool)
      requires Valid()
      modifies file.expenses
      ensures ok == (isOpen && FirstIndex(old(file.expenses[..]), FreeExpense).Some?)
      ensures file.expenses[..] == if isOpen then PutFirst(old(file.expenses[..]), FreeExpense, expense) else old(file.expenses[..])
    {
      if !isOpen {
        return false;
      }
      assert file.expenses[..500000] == file.expenses[..];
      var slot := FindSlot(file.expenses, 500000, FreeExpense);
      if slot.None? {
        return false;
      }
      file.expenses[slot.value] := expense;
      return true;
    }

    /** `get_expenses_by_driver`: the driver's first `limit` stored expenses in slot order. */
    method GetExpensesByDriver(driverId: nat, limit: int := 100) returns (r: seq<ExpenseRecord>)
      requires Valid()
      ensures r == if isOpen then Take(Filter(file.expenses[..], DriverExpense(driverId)), limit) else []
    {
      if !isOpen {
        return [];
      }
      assert file.expenses[..500000] == file.expenses[..];
      r := CollectFirstSlots(file.expenses, 500000, DriverExpense(driverId), limit);
    }

    /** `get_expenses_by_category`: every stored expense of that driver in that category. */
    method GetExpensesByCategory(driverId: nat, category: ExpenseCategory) returns (r: seq<ExpenseRecord>)
      requires Valid()
      ensures r == if isOpen then Filter(file.expenses[..], DriverExpenseIn(driverId, category)) else []
    {
      if !isOpen {
        return [];
      }
      assert file.expenses[..500000] == file.expenses[..];
      r := CollectSlots(file.expenses, 500000, DriverExpenseIn(driverId, category));
    }

    /** `get_stats`: counts of active drivers and vehicles and stored file.trips, and the file size. */
    method GetStats() returns (stats: DatabaseStats)
      requires Valid()
      ensures stats == if isOpen then
          DefaultStats.(totalDrivers := Count(file.drivers[..], ActiveDriver), activeDrivers := Count(file.drivers[..], ActiveDriver),
            totalVehicles := Count(file.vehicles[..], ActiveVehicle), totalTrips := Count(file.trips[..], StoredTrip),
            databaseSize := header.totalSize, usedSpace := header.totalSize)
        else DefaultStats
    {
      stats := DefaultStats;
      if !isOpen {
        return;
      }
      assert file.drivers[..header.maxDrivers] == file.drivers[..];
      assert file.vehicles[..header.maxVehicles] == file.vehicles[..];
      assert file.trips[..header.maxTrips] == file.trips[..];
      var activeDrivers := CountSlots(file.drivers, header.maxDrivers, ActiveDriver);
      var activeVehicles := CountSlots(file.vehicles, header.maxVehicles, ActiveVehicle);
      var storedTrips := CountSlots(file.trips, header.maxTrips, StoredTrip);
      stats := stats.(totalDrivers := activeDrivers, activeDrivers := activeDrivers,
        totalVehicles := activeVehicles, totalTrips := storedTrips);
      stats := stats.(databaseSize := header.totalSize);
      stats := stats.(usedSpace := stats.databaseSize);
    }
  }
}
