/**
 * The in-memory incident store (IncidentManager.h): a vector of incident
 * reports with the next id to hand out, first-match updates by id,
 * order-preserving filters, per-driver statistics, and the safety-score
 * deduction a new incident applies to the driver's record in the database.
 *
 * The clock is a parameter (`now`, in system-clock ticks of one
 * nanosecond). Latitude, longitude, the estimated damage and the insurance
 * payout are floating-point and are not modelled.
 */
module IncidentManager {
  import opened Wrappers
  import opened Seqs
  import opened SdmTypes
  import opened DatabaseManager
  import opened CacheManager
  import opened Ints

  /** Clock ticks per day. */
  const TicksPerDay: nat := 86400 * 1_000_000_000

  // The safety deduction.

  /** Points an incident of type t costs the driver. */
  function Deduction(t: IncidentType): nat
  {
    match t
    case Accident => 150
    case TrafficViolation => 100
    case Breakdown => 0
    case Theft => 0
    case Vandalism => 0
  }

  /** The safety score after an incident of type t: lowered by its deduction, never below zero. */
  function ScoreAfter(score: nat, t: IncidentType): (r: nat)
    ensures r <= score
    ensures r == 0 <==> score <= Deduction(t)
    ensures r > 0 ==> r + Deduction(t) == score
  {
    if score > Deduction(t) then score - Deduction(t) else 0
  }

  /** Breakdowns, thefts and vandalism leave the score alone. */
  lemma NoFaultKeepsScore(score: nat, t: IncidentType)
    requires t == Breakdown || t == Theft || t == Vandalism
    ensures ScoreAfter(score, t) == score
  {
  }

  /** Two deductions amount to one saturating deduction of their sum, so their order does not matter. */
  lemma DeductionsAdd(score: nat, t1: IncidentType, t2: IncidentType)
    ensures ScoreAfter(ScoreAfter(score, t1), t2) == if score > Deduction(t1) + Deduction(t2) then score - Deduction(t1) - Deduction(t2) else 0
    ensures ScoreAfter(ScoreAfter(score, t1), t2) == ScoreAfter(ScoreAfter(score, t2), t1)
  {
  }

  /** The driver record `update_driver_safety_after_incident` writes back. */
  function Penalized(d: DriverProfile, t: IncidentType): (r: DriverProfile)
    ensures r.driverId == d.driverId && r.isActive == d.isActive
    ensures r.safetyScore == ScoreAfter(d.safetyScore, t)
  {
    d.(safetyScore := ScoreAfter(d.safetyScore, t))
  }

  // Incidents and the predicates the scans use.

  /** The report `report_incident` appends: a default report with the given fields, unresolved. */
  function NewIncident(id: u64, driverId: nat, vehicleId: nat, tripId: nat, t: IncidentType,
                       now: u64, location: string, description: string): (r: IncidentReport)
    ensures r.incidentId == id && r.driverId == driverId && r.vehicleId == vehicleId && r.tripId == tripId
    ensures r.incidentType == t && r.incidentTime == now && r.isResolved == 0
    ensures |r.locationAddress| <= 255 && |r.description| <= 511
    ensures r.policeReportNumber == "" && r.insuranceClaimNumber == "" && r.otherPartyInfo == ""
  {
    DefaultIncident.(incidentId := id, driverId := driverId, vehicleId := vehicleId, tripId := tripId,
      incidentType := t, incidentTime := now, locationAddress := CString(location, 256),
      description := CString(description, 512), isResolved := 0)
  }

  function WithId(id: nat): IncidentReport -> bool { (x: IncidentReport) => x.incidentId == id }
  function OfDriver(driverId: nat): IncidentReport -> bool { (x: IncidentReport) => x.driverId == driverId }
  function OfVehicle(vehicleId: nat): IncidentReport -> bool { (x: IncidentReport) => x.vehicleId == vehicleId }
  function OpenOf(driverId: nat): IncidentReport -> bool
  {
    (x: IncidentReport) => x.driverId == driverId && x.isResolved == 0
  }
  function OfDriverAndType(driverId: nat, t: IncidentType): IncidentReport -> bool
  {
    (x: IncidentReport) => x.driverId == driverId && x.incidentType == t
  }
  function OfType(t: IncidentType): IncidentReport -> bool { (x: IncidentReport) => x.incidentType == t }
  function Resolved(): IncidentReport -> bool { (x: IncidentReport) => x.isResolved != 0 }
  function Unresolved(): IncidentReport -> bool { (x: IncidentReport) => x.isResolved == 0 }

  // The rewrites of a report the updates by id apply.

  function SetOtherParty(info: string): IncidentReport -> IncidentReport
  {
    (x: IncidentReport) => x.(otherPartyInfo := CString(info, 256))
  }
  function SetPoliceReport(number: string): IncidentReport -> IncidentReport
  {
    (x: IncidentReport) => x.(policeReportNumber := CString(number, 64))
  }
  function SetInsuranceClaim(number: string): IncidentReport -> IncidentReport
  {
    (x: IncidentReport) => x.(insuranceClaimNumber := CString(number, 64))
  }
  function SetResolved(now: u64): IncidentReport -> IncidentReport
  {
    (x: IncidentReport) => x.(isResolved := 1, resolvedDate := now)
  }

  // The scans.

  /** The range-for loops of the getters: every element satisfying p, in order. */
  method Select<T>(s: seq<T>, p: T -> bool) returns (r: seq<T>)
    ensures r == Filter(s, p)
  {
    r := [];
    for i := 0 to |s|
      invariant r == Filter(s[..i], p)
    {
      assert s[..i + 1] == s[..i] + [s[i]];
      FilterSnoc(s[..i], s[i], p);
      if p(s[i]) {
        r := r + [s[i]];
      }
    }
    assert s[..|s|] == s;
  }

  /** The latest incident time in s, 0 for none: `last_incident_time`. */
  function Latest(s: seq<IncidentReport>): (r: nat)
    ensures forall i :: 0 <= i < |s| ==> s[i].incidentTime <= r
    ensures r > 0 ==> exists i :: 0 <= i < |s| && s[i].incidentTime == r
  {
    if s == [] then 0
    else
      var m := Latest(s[..|s| - 1]);
      assert forall i :: 0 <= i < |s| - 1 ==> s[..|s| - 1][i] == s[i];
      if s[|s| - 1].incidentTime > m then s[|s| - 1].incidentTime else m
  }

  /** `IncidentStats`, without the two floating-point totals. */
  datatype IncidentStats = IncidentStats(
    driverId: nat, totalIncidents: u32, totalAccidents: u32, totalBreakdowns: u32, totalThefts: u32,
    totalViolations: u32, resolvedIncidents: u32, unresolvedIncidents: u32, incidentFreeDays: u32)

  /** The number of matching incidents as a uint32_t counter holds it: modulo 2^32. */
  function Counter(ds: seq<IncidentReport>, p: IncidentReport -> bool): u32
  {
    Count(ds, p) % Two32
  }

  /** Whole days from last to now, computed on uint64_t and stored in a uint32_t; 0 when there is no incident. */
  function FreeDays(last: nat, now: u64): u32
  {
    if last > 0 then (((now - last) % Two64) / TicksPerDay) % Two32 else 0
  }

  /** The counters of get_incident_statistics over the driver's incidents ds, before the day count. */
  function Counters(driverId: nat, ds: seq<IncidentReport>): IncidentStats
  {
    IncidentStats(driverId, |ds| % Two32,
      Counter(ds, OfType(Accident)), Counter(ds, OfType(Breakdown)),
      Counter(ds, OfType(Theft)), Counter(ds, OfType(TrafficViolation)),
      Counter(ds, Resolved()), Counter(ds, Unresolved()), 0)
  }

  /**
   * The statistics over the driver's incidents ds: each counter is the
   * number of matching incidents modulo 2^32, and the incident-free days
   * are counted from the latest incident.
   */
  function Statistics(driverId: nat, ds: seq<IncidentReport>, now: u64): IncidentStats
  {
    Counters(driverId, ds).(incidentFreeDays := FreeDays(Latest(ds), now))
  }

  /** A wrapping increment of a counter modulo 2^32 is the counter of one more. */
  lemma IncMod(n: nat)
    ensures Inc32(n % Two32) == (n + 1) % Two32
  {
  }

  /** One more element: a counter of matching elements goes up by one exactly when the element matches. */
  lemma CountSnoc(s: seq<IncidentReport>, x: IncidentReport, p: IncidentReport -> bool)
    ensures Count(s + [x], p) == Count(s, p) + (if p(x) then 1 else 0)
  {
    FilterSnoc(s, x, p);
  }

  /** Every incident is resolved or unresolved. */
  lemma {:induction false} ResolvedSplit(s: seq<IncidentReport>)
    ensures Count(s, Resolved()) + Count(s, Unresolved()) == |s|
  {
    if s != [] {
      ResolvedSplit(s[1..]);
    }
  }

  /** The five types partition the incidents; vandalism has no counter of its own. */
  lemma {:induction false} TypeSplit(s: seq<IncidentReport>)
    ensures Count(s, OfType(Accident)) + Count(s, OfType(Breakdown)) + Count(s, OfType(Theft))
      + Count(s, OfType(Vandalism)) + Count(s, OfType(TrafficViolation)) == |s|
  {
    if s != [] {
      TypeSplit(s[1..]);
    }
  }

  /** Below 2^32 incidents the resolved and unresolved counters add up to the total. */
  lemma StatisticsConsistent(driverId: nat, ds: seq<IncidentReport>, now: u64)
    requires |ds| < Two32
    ensures var st := Statistics(driverId, ds, now);
      st.resolvedIncidents + st.unresolvedIncidents == st.totalIncidents
      && st.totalAccidents + st.totalBreakdowns + st.totalThefts + st.totalViolations <= st.totalIncidents
  {
    ResolvedSplit(ds);
    TypeSplit(ds);
    SmallCounter(ds, OfType(Accident));
    SmallCounter(ds, OfType(Breakdown));
    SmallCounter(ds, OfType(Theft));
    SmallCounter(ds, OfType(TrafficViolation));
    SmallCounter(ds, Resolved());
    SmallCounter(ds, Unresolved());
  }

  /** Below 2^32 incidents a counter is the exact count. */
  lemma SmallCounter(ds: seq<IncidentReport>, p: IncidentReport -> bool)
    requires |ds| < Two32
    ensures Counter(ds, p) == Count(ds, p)
  {
  }

  /** Unresolved incidents of a driver are the unresolved ones among the driver's incidents. */
  lemma {:induction false} OpenIsDriverUnresolved(s: seq<IncidentReport>, driverId: nat)
    ensures Filter(s, OpenOf(driverId)) == Filter(Filter(s, OfDriver(driverId)), Unresolved())
  {
    if s != [] {
      OpenIsDriverUnresolved(s[1..], driverId);
      if s[0].driverId == driverId {
        assert ([s[0]] + Filter(s[1..], OfDriver(driverId)))[1..] == Filter(s[1..], OfDriver(driverId));
      }
    }
  }

  /** Incidents by driver and type are the driver's incidents of that type. */
  lemma {:induction false} TypedIsDriverTyped(s: seq<IncidentReport>, driverId: nat, t: IncidentType)
    ensures Filter(s, OfDriverAndType(driverId, t)) == Filter(Filter(s, OfDriver(driverId)), OfType(t))
  {
    if s != [] {
      TypedIsDriverTyped(s[1..], driverId, t);
      if s[0].driverId == driverId {
        assert ([s[0]] + Filter(s[1..], OfDriver(driverId)))[1..] == Filter(s[1..], OfDriver(driverId));
      }
    }
  }

  /** A report appended for a driver is the last of that driver's incidents; other drivers' lists are unchanged. */
  lemma ReportedIsLast(s: seq<IncidentReport>, x: IncidentReport, driverId: nat)
    ensures Filter(s + [x], OfDriver(driverId)) == Filter(s, OfDriver(driverId)) + (if x.driverId == driverId then [x] else [])
  {
    FilterSnoc(s, x, OfDriver(driverId));
  }

  /** No two reports share an id. */
  predicate UniqueIds(s: seq<IncidentReport>)
  {
    forall i, j :: 0 <= i < j < |s| ==> s[i].incidentId != s[j].incidentId
  }

  /** Every id in s is below next: the ids handed out so far, while the counter has not wrapped. */
  predicate IdsBelow(s: seq<IncidentReport>, next: nat)
  {
    forall i :: 0 <= i < |s| ==> s[i].incidentId < next
  }

  /**
   * Appending a report with the next id keeps the ids unique and below the
   * incremented counter, as long as the uint64_t counter does not wrap.
   */
  lemma AppendKeepsIdsUnique(s: seq<IncidentReport>, next: u64, x: IncidentReport)
    requires UniqueIds(s) && IdsBelow(s, next)
    requires x.incidentId == next && next < Two64 - 1
    ensures UniqueIds(s + [x]) && IdsBelow(s + [x], Inc64(next))
  {
    forall i, j | 0 <= i < j < |s + [x]|
      ensures (s + [x])[i].incidentId != (s + [x])[j].incidentId
    {
      if j == |s| {
        assert (s + [x])[i] == s[i];
      } else {
        assert (s + [x])[i] == s[i] && (s + [x])[j] == s[j];
      }
    }
  }

  /**
   * The follow-up loop of report_accident and report_theft, on a report
   * appended with an id no earlier report has, rewrites exactly that new
   * report.
   */
  lemma FreshIdUpdate(s: seq<IncidentReport>, x: IncidentReport, f: IncidentReport -> IncidentReport)
    requires IdsBelow(s, x.incidentId)
    ensures ApplyFirst(s + [x], WithId(x.incidentId), f) == s + [f(x)]
  {
    FirstIndexAt(s + [x], WithId(x.incidentId), |s|);
    var r := ApplyFirst(s + [x], WithId(x.incidentId), f);
    assert forall j :: 0 <= j < |s| ==> r[j] == (s + [x])[j] == s[j];
  }

  /** With unique ids, a resolved incident leaves every driver's unresolved list. */
  lemma ResolvedLeavesOpen(s: seq<IncidentReport>, id: nat, now: u64, driverId: nat, y: IncidentReport)
    requires UniqueIds(s)
    requires y in Filter(ApplyFirst(s, WithId(id), SetResolved(now)), OpenOf(driverId))
    ensures y.incidentId != id
  {
    var r := ApplyFirst(s, WithId(id), SetResolved(now));
    FilterMembers(r, OpenOf(driverId), y);
    var j :| 0 <= j < |r| && r[j] == y;
    if FirstIndex(s, WithId(id)).Some? {
      var k := FirstIndex(s, WithId(id)).value;
      if j != k {
        assert r[j] == s[j];
        if j < k {
          assert s[j].incidentId != s[k].incidentId;
        } else {
          assert s[k].incidentId != s[j].incidentId;
        }
      }
    }
  }

  /**
   * IncidentManager: the store of reports, the next id, and the database
   * and cache whose driver records a new incident rewrites.
   */
  class IncidentManager {
    const db: DatabaseManager
    const cache: CacheManager
    var incidents: seq<IncidentReport>
    var nextIncidentId: u64

    /** `IncidentManager(db, cache)`; the first id is a parameter (the source leaves next_incident_id_ uninitialised). */
    constructor (db: DatabaseManager, cache: CacheManager, firstId: u64)
      ensures this.db == db && this.cache == cache
      ensures incidents == [] && nextIncidentId == firstId
    {
      this.db := db;
      this.cache := cache;
      incidents := [];
      nextIncidentId := firstId;
    }

    /**
     * The effect of update_driver_safety_after_incident(driverId, t): when
     * the database is open and holds a live driver with that id, the first
     * such record gets its score lowered and the driver leaves the cache;
     * otherwise neither changes.
     */
    twostate predicate SafetyDeducted(driverId: nat, t: IncidentType)
      reads db, db.file, db.file.drivers, cache.drivers.lru, cache.drivers.lru.table
    {
      ScoreLowered(driverId, t) && Evicted(driverId, Lookup(driverId).Some?)
    }

    /** What read_driver(driverId) returned before the update. */
    twostate function Lookup(driverId: nat): Option<DriverProfile>
      reads db, db.file, db.file.drivers
    {
      if old(db.isOpen) then FirstMatch(old(db.file.drivers[..]), LiveDriver(driverId)) else None
    }

    /** The database half: the first live record with the id, if read, has its score lowered. */
    twostate predicate ScoreLowered(driverId: nat, t: IncidentType)
      reads db, db.file, db.file.drivers
    {
      var m := Lookup(driverId);
      db.file.drivers[..] == if m.None? then old(db.file.drivers[..])
                             else PutFirst(old(db.file.drivers[..]), LiveDriver(driverId), Penalized(m.value, t))
    }

    /** The cache half: when the driver was read, it leaves the driver cache and nothing else does. */
    twostate predicate Evicted(driverId: nat, read: bool)
      reads cache.drivers.lru, cache.drivers.lru.table
    {
      var now := cache.drivers.lru.table.contents;
      var before := old(cache.drivers.lru.table.contents);
      if !read then now == before
      else driverId !in now && forall x :: x in now ==> x in before && now[x] == before[x]
    }

    /** update_driver_safety_after_incident. */
    method UpdateDriverSafety(driverId: nat, t: IncidentType)
      requires db.Valid() && cache.drivers.Valid()
      modifies db.file.drivers, cache.drivers.lru, cache.drivers.lru.table
      ensures db.Valid() && cache.drivers.Valid()
      ensures SafetyDeducted(driverId, t)
    {
      label Before:
      var found := Penalize(driverId, t);
      RecordFramed@Before(cache.drivers);
      if found {
        cache.drivers.Invalidate(driverId);
      }
    }

    /** The database half of update_driver_safety_after_incident: read, lower the score, write back. */
    method Penalize(driverId: nat, t: IncidentType) returns (found: bool)
      requires db.Valid()
      modifies db.file.drivers
      ensures db.Valid()
      ensures found == Lookup(driverId).Some? && ScoreLowered(driverId, t)
    {
      var driver := db.ReadDriver(driverId);
      if driver.None? {
        return false;
      }
      var d := Penalized(driver.value, t);
      assert LiveDriver(d.driverId) == LiveDriver(driverId);
      var _ := db.UpdateDriver(d);
      return true;
    }

    /** The bookkeeping half of report_incident: hands out the next id and appends the report. */
    method Record(driverId: nat, vehicleId: nat, t: IncidentType, location: string, description: string,
                  tripId: nat, now: u64) returns (id: u64)
      modifies this
      ensures id == old(nextIncidentId) && nextIncidentId == Inc64(old(nextIncidentId))
      ensures incidents == old(incidents) + [NewIncident(id, driverId, vehicleId, tripId, t, now, location, description)]
    {
      id := nextIncidentId;
      nextIncidentId := Inc64(nextIncidentId);
      incidents := incidents + [NewIncident(id, driverId, vehicleId, tripId, t, now, location, description)];
    }

    /** report_incident: records the incident, then applies the driver's safety deduction. */
    method ReportIncident(driverId: nat, vehicleId: nat, t: IncidentType, location: string, description: string,
                          tripId: nat, now: u64) returns (id: u64)
      requires db.Valid() && cache.drivers.Valid()
      modifies this, db.file.drivers, cache.drivers.lru, cache.drivers.lru.table
      ensures db.Valid() && cache.drivers.Valid()
      ensures id == old(nextIncidentId) && nextIncidentId == Inc64(old(nextIncidentId))
      ensures incidents == old(incidents) + [NewIncident(id, driverId, vehicleId, tripId, t, now, location, description)]
      ensures SafetyDeducted(driverId, t)
    {
      id := Record(driverId, vehicleId, t, location, description, tripId, now);
      UpdateDriverSafety(driverId, t);
    }

    /** Rewrites the first report with the given id by f, as the range-for loops with `break`/`return` do. */
    method UpdateFirst(id: nat, f: IncidentReport -> IncidentReport) returns (found: bool)
      modifies this
      ensures found <==> exists i :: 0 <= i < |old(incidents)| && old(incidents)[i].incidentId == id
      ensures incidents == ApplyFirst(old(incidents), WithId(id), f)
      ensures nextIncidentId == old(nextIncidentId)
    {
      var k := Locate(incidents, WithId(id));
      if k.None? {
        return false;
      }
      incidents := incidents[k.value := f(incidents[k.value])];
      return true;
    }

    /** report_accident: an accident with no address, then the other party's details on the first report with its id. */
    method ReportAccident(driverId: nat, vehicleId: nat, description: string, otherPartyInfo: string, now: u64)
      returns (id: u64)
      requires db.Valid() && cache.drivers.Valid()
      modifies this, db.file.drivers, cache.drivers.lru, cache.drivers.lru.table
      ensures db.Valid() && cache.drivers.Valid()
      ensures id == old(nextIncidentId) && nextIncidentId == Inc64(old(nextIncidentId))
      ensures incidents == ApplyFirst(old(incidents) + [NewIncident(id, driverId, vehicleId, 0, Accident, now, "", description)],
                                      WithId(id), SetOtherParty(otherPartyInfo))
      ensures SafetyDeducted(driverId, Accident)
    {
      id := ReportIncident(driverId, vehicleId, Accident, "", description, 0, now);
      var _ := UpdateFirst(id, SetOtherParty(otherPartyInfo));
    }

    /** report_breakdown. */
    method ReportBreakdown(driverId: nat, vehicleId: nat, description: string, now: u64) returns (id: u64)
      requires db.Valid() && cache.drivers.Valid()
      modifies this, db.file.drivers, cache.drivers.lru, cache.drivers.lru.table
      ensures db.Valid() && cache.drivers.Valid()
      ensures id == old(nextIncidentId) && nextIncidentId == Inc64(old(nextIncidentId))
      ensures incidents == old(incidents) + [NewIncident(id, driverId, vehicleId, 0, Breakdown, now, "", description)]
      ensures SafetyDeducted(driverId, Breakdown)
    {
      id := ReportIncident(driverId, vehicleId, Breakdown, "", description, 0, now);
    }

    /** report_theft: a theft with no address, then the police report number on the first report with its id. */
    method ReportTheft(driverId: nat, vehicleId: nat, description: string, policeReportNumber: string, now: u64)
      returns (id: u64)
      requires db.Valid() && cache.drivers.Valid()
      modifies this, db.file.drivers, cache.drivers.lru, cache.drivers.lru.table
      ensures db.Valid() && cache.drivers.Valid()
      ensures id == old(nextIncidentId) && nextIncidentId == Inc64(old(nextIncidentId))
      ensures incidents == ApplyFirst(old(incidents) + [NewIncident(id, driverId, vehicleId, 0, Theft, now, "", description)],
                                      WithId(id), SetPoliceReport(policeReportNumber))
      ensures SafetyDeducted(driverId, Theft)
    {
      id := ReportIncident(driverId, vehicleId, Theft, "", description, 0, now);
      var _ := UpdateFirst(id, SetPoliceReport(policeReportNumber));
    }

    /** add_police_report: true iff a report with the id exists; the first one gets the number. */
    method AddPoliceReport(id: nat, number: string) returns (ok: bool)
      modifies this
      ensures ok <==> exists i :: 0 <= i < |old(incidents)| && old(incidents)[i].incidentId == id
      ensures incidents == ApplyFirst(old(incidents), WithId(id), SetPoliceReport(number))
      ensures nextIncidentId == old(nextIncidentId)
    {
      ok := UpdateFirst(id, SetPoliceReport(number));
    }

    /** add_insurance_claim: true iff a report with the id exists; the first one gets the claim number. */
    method AddInsuranceClaim(id: nat, claimNumber: string) returns (ok: bool)
      modifies this
      ensures ok <==> exists i :: 0 <= i < |old(incidents)| && old(incidents)[i].incidentId == id
      ensures incidents == ApplyFirst(old(incidents), WithId(id), SetInsuranceClaim(claimNumber))
      ensures nextIncidentId == old(nextIncidentId)
    {
      ok := UpdateFirst(id, SetInsuranceClaim(claimNumber));
    }

    /** mark_resolved: true iff a report with the id exists; the first one is resolved now. */
    method MarkResolved(id: nat, now: u64) returns (ok: bool)
      modifies this
      ensures ok <==> exists i :: 0 <= i < |old(incidents)| && old(incidents)[i].incidentId == id
      ensures incidents == ApplyFirst(old(incidents), WithId(id), SetResolved(now))
      ensures nextIncidentId == old(nextIncidentId)
    {
      ok := UpdateFirst(id, SetResolved(now));
    }

    /** get_driver_incidents. */
    method GetDriverIncidents(driverId: nat) returns (r: seq<IncidentReport>)
      ensures r == Filter(incidents, OfDriver(driverId))
    {
      r := Select(incidents, OfDriver(driverId));
    }

    /** get_vehicle_incidents. */
    method GetVehicleIncidents(vehicleId: nat) returns (r: seq<IncidentReport>)
      ensures r == Filter(incidents, OfVehicle(vehicleId))
    {
      r := Select(incidents, OfVehicle(vehicleId));
    }

    /** get_unresolved_incidents. */
    method GetUnresolvedIncidents(driverId: nat) returns (r: seq<IncidentReport>)
      ensures r == Filter(incidents, OpenOf(driverId))
    {
      r := Select(incidents, OpenOf(driverId));
    }

    /** get_incidents_by_type. */
    method GetIncidentsByType(driverId: nat, t: IncidentType) returns (r: seq<IncidentReport>)
      ensures r == Filter(incidents, OfDriverAndType(driverId, t))
    {
      r := Select(incidents, OfDriverAndType(driverId, t));
    }

    /** get_incident_statistics: one pass over the driver's incidents. */
    method GetIncidentStatistics(driverId: nat, now: u64) returns (st: IncidentStats)
      ensures st == Statistics(driverId, Filter(incidents, OfDriver(driverId)), now)
    {
      var ds := GetDriverIncidents(driverId);
      st := IncidentStats(driverId, 0, 0, 0, 0, 0, 0, 0, 0);
      var last := 0;
      for i := 0 to |ds|
        invariant st == Counters(driverId, ds[..i])
        invariant last == Latest(ds[..i])
      {
        assert ds[..i + 1] == ds[..i] + [ds[i]];
        assert (ds[..i] + [ds[i]])[..i] == ds[..i];
        st := Tally(st, ds[i], driverId, ds[..i]);
        if ds[i].incidentTime > last {
          last := ds[i].incidentTime;
        }
      }
      assert ds[..|ds|] == ds;
      st := st.(incidentFreeDays := FreeDays(last, now));
    }
  }

  /** The body of the statistics loop: counts one more incident x after the incidents seen. */
  method Tally(st: IncidentStats, x: IncidentReport, ghost driverId: nat, ghost seen: seq<IncidentReport>)
    returns (r: IncidentStats)
    requires st == Counters(driverId, seen)
    ensures r == Counters(driverId, seen + [x])
  {
    CountSnoc(seen, x, OfType(Accident));
    CountSnoc(seen, x, OfType(Breakdown));
    CountSnoc(seen, x, OfType(Theft));
    CountSnoc(seen, x, OfType(TrafficViolation));
    CountSnoc(seen, x, Resolved());
    CountSnoc(seen, x, Unresolved());
    IncMod(|seen|);
    IncMod(Count(seen, OfType(x.incidentType)));
    IncMod(Count(seen, if x.isResolved != 0 then Resolved() else Unresolved()));
    r := st.(totalIncidents := Inc32(st.totalIncidents));
    match x.incidentType {
      case Accident => r := r.(totalAccidents := Inc32(r.totalAccidents));
      case Breakdown => r := r.(totalBreakdowns := Inc32(r.totalBreakdowns));
      case Theft => r := r.(totalThefts := Inc32(r.totalThefts));
      case TrafficViolation => r := r.(totalViolations := Inc32(r.totalViolations));
      case Vandalism =>
    }
    if x.isResolved != 0 {
      r := r.(resolvedIncidents := Inc32(r.resolvedIncidents));
    } else {
      r := r.(unresolvedIncidents := Inc32(r.unresolvedIncidents));
    }
  }
}
