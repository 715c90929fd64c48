/**
 * The records of the store: the packed layouts (field widths and record
 * sizes), the enum codes, and the records as values with the defaults their
 * constructors give. Floating-point fields are not part of the values; every
 * integer field is a `nat` and every character buffer the C string it holds.
 */
module SdmTypes {
  import opened Wrappers

  /** `UserRole`. */
  datatype UserRole = Driver | Admin | FleetManager
  {
    function Code(): (c: nat)
      ensures c < 3
    {
      match this
      case Driver => 0
      case Admin => 1
      case FleetManager => 2
    }
  }

  function UserRoleOf(c: nat): (r: Option<UserRole>)
    ensures r.Some? <==> c < 3
    ensures r.Some? ==> r.value.Code() == c
  {
    if c == 0 then Some(Driver) else if c == 1 then Some(Admin) else if c == 2 then Some(FleetManager) else None
  }

  /** `VehicleType`. */
  datatype VehicleType = Sedan | Suv | Truck | Van | Motorcycle
  {
    function Code(): (c: nat)
      ensures c < 5
    {
      match this
      case Sedan => 0
      case Suv => 1
      case Truck => 2
      case Van => 3
      case Motorcycle => 4
    }
  }

  function VehicleTypeOf(c: nat): (r: Option<VehicleType>)
    ensures r.Some? <==> c < 5
    ensures r.Some? ==> r.value.Code() == c
  {
    if c == 0 then Some(Sedan) else if c == 1 then Some(Suv) else if c == 2 then Some(Truck)
    else if c == 3 then Some(Van) else if c == 4 then Some(Motorcycle) else None
  }

  /** `MaintenanceType`. */
  datatype MaintenanceType = OilChange | TireRotation | BrakeService | EngineCheck | Transmission | GeneralService
  {
    function Code(): (c: nat)
      ensures c < 6
    {
      match this
      case OilChange => 0
      case TireRotation => 1
      case BrakeService => 2
      case EngineCheck => 3
      case Transmission => 4
      case GeneralService => 5
    }
  }

  function MaintenanceTypeOf(c: nat): (r: Option<MaintenanceType>)
    ensures r.Some? <==> c < 6
    ensures r.Some? ==> r.value.Code() == c
  {
    if c == 0 then Some(OilChange) else if c == 1 then Some(TireRotation) else if c == 2 then Some(BrakeService)
    else if c == 3 then Some(EngineCheck) else if c == 4 then Some(Transmission) else if c == 5 then Some(GeneralService)
    else None
  }

  /** `ExpenseCategory`. */
  datatype ExpenseCategory = Fuel | Maintenance | Insurance | Toll | Parking | Other
  {
    function Code(): (c: nat)
      ensures c < 6
    {
      match this
      case Fuel => 0
      case Maintenance => 1
      case Insurance => 2
      case Toll => 3
      case Parking => 4
      case Other => 5
    }
  }

  function ExpenseCategoryOf(c: nat): (r: Option<ExpenseCategory>)
    ensures r.Some? <==> c < 6
    ensures r.Some? ==> r.value.Code() == c
  {
    if c == 0 then Some(Fuel) else if c == 1 then Some(Maintenance) else if c == 2 then Some(Insurance)
    else if c == 3 then Some(Toll) else if c == 4 then Some(Parking) else if c == 5 then Some(Other)
    else None
  }

  /** `IncidentType`. */
  datatype IncidentType = Accident | Breakdown | Theft | Vandalism | TrafficViolation
  {
    function Code(): (c: nat)
      ensures c < 5
    {
      match this
      case Accident => 0
      case Breakdown => 1
      case Theft => 2
      case Vandalism => 3
      case TrafficViolation => 4
    }
  }

  function IncidentTypeOf(c: nat): (r: Option<IncidentType>)
    ensures r.Some? <==> c < 5
    ensures r.Some? ==> r.value.Code() == c
  {
    if c == 0 then Some(Accident) else if c == 1 then Some(Breakdown) else if c == 2 then Some(Theft)
    else if c == 3 then Some(Vandalism) else if c == 4 then Some(TrafficViolation) else None
  }

  /** `DrivingEventType`. */
  datatype DrivingEventType = HarshBraking | RapidAcceleration | Speeding | SharpTurn | IdleExcessive
  {
    function Code(): (c: nat)
      ensures c < 5
    {
      match this
      case HarshBraking => 0
      case RapidAcceleration => 1
      case Speeding => 2
      case SharpTurn => 3
      case IdleExcessive => 4
    }
  }

  function DrivingEventTypeOf(c: nat): (r: Option<DrivingEventType>)
    ensures r.Some? <==> c < 5
    ensures r.Some? ==> r.value.Code() == c
  {
    if c == 0 then Some(HarshBraking) else if c == 1 then Some(RapidAcceleration) else if c == 2 then Some(Speeding)
    else if c == 3 then Some(SharpTurn) else if c == 4 then Some(IdleExcessive) else None
  }

  // Packed layouts: each record's fields with their byte widths, in order.

  /** Total width of the fields of a packed layout from field `k` on. */
  function WidthFrom(fields: seq<(string, nat)>, k: nat): nat
    requires k <= |fields|
    decreases |fields| - k
  {
    if k == |fields| then 0 else fields[k].1 + WidthFrom(fields, k + 1)
  }

  /** Total width of a packed layout. */
  function Width(fields: seq<(string, nat)>): nat
  {
    WidthFrom(fields, 0)
  }

  const HeaderLayout: seq<(string, nat)> := [
    ("magic", 8), ("version", 4), ("total_size", 8), ("created_time", 8), ("last_modified", 8),
    ("creator_info", 64), ("driver_table_offset", 8), ("vehicle_table_offset", 8), ("trip_table_offset", 8),
    ("maintenance_table_offset", 8), ("expense_table_offset", 8), ("document_table_offset", 8),
    ("incident_table_offset", 8), ("primary_index_offset", 8), ("secondary_index_offset", 8),
    ("max_drivers", 4), ("max_vehicles", 4), ("max_trips", 4), ("reserved", 3912)]

  const DriverLayout: seq<(string, nat)> := [
    ("driver_id", 8), ("username", 64), ("password_hash", 65), ("role", 1), ("full_name", 128), ("email", 128),
    ("phone", 32), ("license_number", 32), ("license_expiry", 8), ("total_trips", 8), ("total_distance", 8),
    ("total_fuel_consumed", 8), ("safety_score", 4), ("harsh_events_count", 4), ("created_time", 8),
    ("last_login", 8), ("is_active", 1), ("trip_history_head", 8), ("trip_history_tail", 8), ("reserved", 493)]

  const VehicleLayout: seq<(string, nat)> := [
    ("vehicle_id", 8), ("owner_driver_id", 8), ("license_plate", 32), ("make", 64), ("model", 64), ("year", 4),
    ("type", 1), ("color", 32), ("vin", 32), ("engine_capacity", 4), ("fuel_tank_capacity", 8), ("fuel_type", 16),
    ("current_odometer", 8), ("last_service_odometer", 8), ("insurance_provider", 64), ("insurance_policy", 64),
    ("insurance_expiry", 8), ("registration_expiry", 8), ("last_maintenance_date", 8), ("next_maintenance_due", 8),
    ("created_time", 8), ("is_active", 1), ("reserved", 566)]

  const TripLayout: seq<(string, nat)> := [
    ("trip_id", 8), ("driver_id", 8), ("vehicle_id", 8), ("start_time", 8), ("end_time", 8), ("duration", 4),
    ("start_latitude", 8), ("start_longitude", 8), ("end_latitude", 8), ("end_longitude", 8),
    ("start_address", 128), ("end_address", 128), ("distance", 8), ("avg_speed", 8), ("max_speed", 8),
    ("fuel_consumed", 8), ("fuel_efficiency", 8), ("harsh_braking_count", 2), ("rapid_acceleration_count", 2),
    ("speeding_count", 2), ("sharp_turn_count", 2), ("gps_data_offset", 8), ("gps_data_count", 4),
    ("notes", 256), ("reserved", 376)]

  const MaintenanceLayout: seq<(string, nat)> := [
    ("maintenance_id", 8), ("vehicle_id", 8), ("driver_id", 8), ("type", 1), ("service_date", 8),
    ("odometer_reading", 8), ("service_center", 128), ("technician", 64), ("description", 192),
    ("labor_cost", 8), ("parts_cost", 8), ("total_cost", 8), ("currency", 8), ("parts_replaced", 192),
    ("next_service_date", 8), ("next_service_odometer", 8), ("receipt_doc_id", 8), ("notes", 191),
    ("reserved", 160)]

  const ExpenseLayout: seq<(string, nat)> := [
    ("expense_id", 8), ("driver_id", 8), ("vehicle_id", 8), ("trip_id", 8), ("category", 1), ("expense_date", 8),
    ("amount", 8), ("currency", 8), ("description", 256), ("fuel_quantity", 8), ("fuel_price_per_unit", 8),
    ("fuel_station", 128), ("payment_method", 32), ("receipt_number", 64), ("is_tax_deductible", 1),
    ("tax_amount", 8), ("receipt_doc_id", 8), ("notes", 256), ("reserved", 198)]

  const DocumentLayout: seq<(string, nat)> := [
    ("document_id", 8), ("owner_id", 8), ("owner_type", 1), ("filename", 256), ("mime_type", 64),
    ("file_size", 8), ("upload_date", 8), ("expiry_date", 8), ("data_offset", 8), ("data_blocks", 4),
    ("description", 256), ("tags", 128), ("reserved", 267)]

  const IncidentLayout: seq<(string, nat)> := [
    ("incident_id", 8), ("driver_id", 8), ("vehicle_id", 8), ("trip_id", 8), ("type", 1), ("incident_time", 8),
    ("latitude", 8), ("longitude", 8), ("location_address", 256), ("description", 512),
    ("police_report_number", 64), ("insurance_claim_number", 64), ("other_party_info", 256),
    ("witness_info", 256), ("estimated_damage", 8), ("insurance_payout", 8), ("currency", 8),
    ("photo_doc_ids", 40), ("report_doc_id", 8), ("is_resolved", 1), ("resolved_date", 8), ("notes", 256),
    ("reserved", 246)]

  const HeaderSize: nat := 4096
  const DriverSize: nat := 1024
  const VehicleSize: nat := 1024
  const TripSize: nat := 1024
  const MaintenanceSize: nat := 1024
  const ExpenseSize: nat := 1024
  const DocumentSize: nat := 1024
  const IncidentSize: nat := 2048

  /** `SDMHeader` is 4096 bytes: its fields add up to the size the `static_assert` demands. */
  lemma HeaderLayoutSize()
    ensures Width(HeaderLayout) == HeaderSize
  {
    assert WidthFrom(HeaderLayout, 18) == 3912;
    assert WidthFrom(HeaderLayout, 17) == 3916;
    assert WidthFrom(HeaderLayout, 16) == 3920;
    assert WidthFrom(HeaderLayout, 15) == 3924;
    assert WidthFrom(HeaderLayout, 14) == 3932;
    assert WidthFrom(HeaderLayout, 13) == 3940;
    assert WidthFrom(HeaderLayout, 12) == 3948;
    assert WidthFrom(HeaderLayout, 11) == 3956;
    assert WidthFrom(HeaderLayout, 10) == 3964;
    assert WidthFrom(HeaderLayout, 9) == 3972;
    assert WidthFrom(HeaderLayout, 8) == 3980;
    assert WidthFrom(HeaderLayout, 7) == 3988;
    assert WidthFrom(HeaderLayout, 6) == 3996;
    assert WidthFrom(HeaderLayout, 5) == 4060;
    assert WidthFrom(HeaderLayout, 4) == 4068;
    assert WidthFrom(HeaderLayout, 3) == 4076;
    assert WidthFrom(HeaderLayout, 2) == 4084;
    assert WidthFrom(HeaderLayout, 1) == 4088;
    assert WidthFrom(HeaderLayout, 0) == 4096;
  }

  /** `DriverProfile` is 1024 bytes: its fields add up to the size the `static_assert` demands. */
  lemma DriverLayoutSize()
    ensures Width(DriverLayout) == DriverSize
  {
    assert WidthFrom(DriverLayout, 19) == 493;
    assert WidthFrom(DriverLayout, 18) == 501;
    assert WidthFrom(DriverLayout, 17) == 509;
    assert WidthFrom(DriverLayout, 16) == 510;
    assert WidthFrom(DriverLayout, 15) == 518;
    assert WidthFrom(DriverLayout, 14) == 526;
    assert WidthFrom(DriverLayout, 13) == 530;
    assert WidthFrom(DriverLayout, 12) == 534;
    assert WidthFrom(DriverLayout, 11) == 542;
    assert WidthFrom(DriverLayout, 10) == 550;
    assert WidthFrom(DriverLayout, 9) == 558;
    assert WidthFrom(DriverLayout, 8) == 566;
    assert WidthFrom(DriverLayout, 7) == 598;
    assert WidthFrom(DriverLayout, 6) == 630;
    assert WidthFrom(DriverLayout, 5) == 758;
    assert WidthFrom(DriverLayout, 4) == 886;
    assert WidthFrom(DriverLayout, 3) == 887;
    assert WidthFrom(DriverLayout, 2) == 952;
    assert WidthFrom(DriverLayout, 1) == 1016;
    assert WidthFrom(DriverLayout, 0) == 1024;
  }

  /** `VehicleInfo` is 1024 bytes: its fields add up to the size the `static_assert` demands. */
  lemma VehicleLayoutSize()
    ensures Width(VehicleLayout) == VehicleSize
  {
    assert WidthFrom(VehicleLayout, 22) == 566;
    assert WidthFrom(VehicleLayout, 21) == 567;
    assert WidthFrom(VehicleLayout, 20) == 575;
    assert WidthFrom(VehicleLayout, 19) == 583;
    assert WidthFrom(VehicleLayout, 18) == 591;
    assert WidthFrom(VehicleLayout, 17) == 599;
    assert WidthFrom(VehicleLayout, 16) == 607;
    assert WidthFrom(VehicleLayout, 15) == 671;
    assert WidthFrom(VehicleLayout, 14) == 735;
    assert WidthFrom(VehicleLayout, 13) == 743;
    assert WidthFrom(VehicleLayout, 12) == 751;
    assert WidthFrom(VehicleLayout, 11) == 767;
    assert WidthFrom(VehicleLayout, 10) == 775;
    assert WidthFrom(VehicleLayout, 9) == 779;
    assert WidthFrom(VehicleLayout, 8) == 811;
    assert WidthFrom(VehicleLayout, 7) == 843;
    assert WidthFrom(VehicleLayout, 6) == 844;
    assert WidthFrom(VehicleLayout, 5) == 848;
    assert WidthFrom(VehicleLayout, 4) == 912;
    assert WidthFrom(VehicleLayout, 3) == 976;
    assert WidthFrom(VehicleLayout, 2) == 1008;
    assert WidthFrom(VehicleLayout, 1) == 1016;
    assert WidthFrom(VehicleLayout, 0) == 1024;
  }

  /** `TripRecord` is 1024 bytes: its fields add up to the size the `static_assert` demands. */
  lemma TripLayoutSize()
    ensures Width(TripLayout) == TripSize
  {
    assert WidthFrom(TripLayout, 24) == 376;
    assert WidthFrom(TripLayout, 23) == 632;
    assert WidthFrom(TripLayout, 22) == 636;
    assert WidthFrom(TripLayout, 21) == 644;
    assert WidthFrom(TripLayout, 20) == 646;
    assert WidthFrom(TripLayout, 19) == 648;
    assert WidthFrom(TripLayout, 18) == 650;
    assert WidthFrom(TripLayout, 17) == 652;
    assert WidthFrom(TripLayout, 16) == 660;
    assert WidthFrom(TripLayout, 15) == 668;
    assert WidthFrom(TripLayout, 14) == 676;
    assert WidthFrom(TripLayout, 13) == 684;
    assert WidthFrom(TripLayout, 12) == 692;
    assert WidthFrom(TripLayout, 11) == 820;
    assert WidthFrom(TripLayout, 10) == 948;
    assert WidthFrom(TripLayout, 9) == 956;
    assert WidthFrom(TripLayout, 8) == 964;
    assert WidthFrom(TripLayout, 7) == 972;
    assert WidthFrom(TripLayout, 6) == 980;
    assert WidthFrom(TripLayout, 5) == 984;
    assert WidthFrom(TripLayout, 4) == 992;
    assert WidthFrom(TripLayout, 3) == 1000;
    assert WidthFrom(TripLayout, 2) == 1008;
    assert WidthFrom(TripLayout, 1) == 1016;
    assert WidthFrom(TripLayout, 0) == 1024;
  }

  /** `MaintenanceRecord` is 1024 bytes: its fields add up to the size the `static_assert` demands. */
  lemma MaintenanceLayoutSize()
    ensures Width(MaintenanceLayout) == MaintenanceSize
  {
    assert WidthFrom(MaintenanceLayout, 18) == 160;
    assert WidthFrom(MaintenanceLayout, 17) == 351;
    assert WidthFrom(MaintenanceLayout, 16) == 359;
    assert WidthFrom(MaintenanceLayout, 15) == 367;
    assert WidthFrom(MaintenanceLayout, 14) == 375;
    assert WidthFrom(MaintenanceLayout, 13) == 567;
    assert WidthFrom(MaintenanceLayout, 12) == 575;
    assert WidthFrom(MaintenanceLayout, 11) == 583;
    assert WidthFrom(MaintenanceLayout, 10) == 591;
    assert WidthFrom(MaintenanceLayout, 9) == 599;
    assert WidthFrom(MaintenanceLayout, 8) == 791;
    assert WidthFrom(MaintenanceLayout, 7) == 855;
    assert WidthFrom(MaintenanceLayout, 6) == 983;
    assert WidthFrom(MaintenanceLayout, 5) == 991;
    assert WidthFrom(MaintenanceLayout, 4) == 999;
    assert WidthFrom(MaintenanceLayout, 3) == 1000;
    assert WidthFrom(MaintenanceLayout, 2) == 1008;
    assert WidthFrom(MaintenanceLayout, 1) == 1016;
    assert WidthFrom(MaintenanceLayout, 0) == 1024;
  }

  /** `ExpenseRecord` is 1024 bytes: its fields add up to the size the `static_assert` demands. */
  lemma ExpenseLayoutSize()
    ensures Width(ExpenseLayout) == ExpenseSize
  {
    assert WidthFrom(ExpenseLayout, 18) == 198;
    assert WidthFrom(ExpenseLayout, 17) == 454;
    assert WidthFrom(ExpenseLayout, 16) == 462;
    assert WidthFrom(ExpenseLayout, 15) == 470;
    assert WidthFrom(ExpenseLayout, 14) == 471;
    assert WidthFrom(ExpenseLayout, 13) == 535;
    assert WidthFrom(ExpenseLayout, 12) == 567;
    assert WidthFrom(ExpenseLayout, 11) == 695;
    assert WidthFrom(ExpenseLayout, 10) == 703;
    assert WidthFrom(ExpenseLayout, 9) == 711;
    assert WidthFrom(ExpenseLayout, 8) == 967;
    assert WidthFrom(ExpenseLayout, 7) == 975;
    assert WidthFrom(ExpenseLayout, 6) == 983;
    assert WidthFrom(ExpenseLayout, 5) == 991;
    assert WidthFrom(ExpenseLayout, 4) == 992;
    assert WidthFrom(ExpenseLayout, 3) == 1000;
    assert WidthFrom(ExpenseLayout, 2) == 1008;
    assert WidthFrom(ExpenseLayout, 1) == 1016;
    assert WidthFrom(ExpenseLayout, 0) == 1024;
  }

  /** `DocumentMetadata` is 1024 bytes: its fields add up to the size the `static_assert` demands. */
  lemma DocumentLayoutSize()
    ensures Width(DocumentLayout) == DocumentSize
  {
    assert WidthFrom(DocumentLayout, 12) == 267;
    assert WidthFrom(DocumentLayout, 11) == 395;
    assert WidthFrom(DocumentLayout, 10) == 651;
    assert WidthFrom(DocumentLayout, 9) == 655;
    assert WidthFrom(DocumentLayout, 8) == 663;
    assert WidthFrom(DocumentLayout, 7) == 671;
    assert WidthFrom(DocumentLayout, 6) == 679;
    assert WidthFrom(DocumentLayout, 5) == 687;
    assert WidthFrom(DocumentLayout, 4) == 751;
    assert WidthFrom(DocumentLayout, 3) == 1007;
    assert WidthFrom(DocumentLayout, 2) == 1008;
    assert WidthFrom(DocumentLayout, 1) == 1016;
    assert WidthFrom(DocumentLayout, 0) == 1024;
  }

  /** `IncidentReport` is 2048 bytes: its fields add up to the size the `static_assert` demands. */
  lemma IncidentLayoutSize()
    ensures Width(IncidentLayout) == IncidentSize
  {
    assert WidthFrom(IncidentLayout, 22) == 246;
    assert WidthFrom(IncidentLayout, 21) == 502;
    assert WidthFrom(IncidentLayout, 20) == 510;
    assert WidthFrom(IncidentLayout, 19) == 511;
    assert WidthFrom(IncidentLayout, 18) == 519;
    assert WidthFrom(IncidentLayout, 17) == 559;
    assert WidthFrom(IncidentLayout, 16) == 567;
    assert WidthFrom(IncidentLayout, 15) == 575;
    assert WidthFrom(IncidentLayout, 14) == 583;
    assert WidthFrom(IncidentLayout, 13) == 839;
    assert WidthFrom(IncidentLayout, 12) == 1095;
    assert WidthFrom(IncidentLayout, 11) == 1159;
    assert WidthFrom(IncidentLayout, 10) == 1223;
    assert WidthFrom(IncidentLayout, 9) == 1735;
    assert WidthFrom(IncidentLayout, 8) == 1991;
    assert WidthFrom(IncidentLayout, 7) == 1999;
    assert WidthFrom(IncidentLayout, 6) == 2007;
    assert WidthFrom(IncidentLayout, 5) == 2015;
    assert WidthFrom(IncidentLayout, 4) == 2016;
    assert WidthFrom(IncidentLayout, 3) == 2024;
    assert WidthFrom(IncidentLayout, 2) == 2032;
    assert WidthFrom(IncidentLayout, 1) == 2040;
    assert WidthFrom(IncidentLayout, 0) == 2048;
  }

  /**
   * The text a `char buf[n]` holds after `strncpy(buf, s.c_str(), n - 1)`
   * into a zeroed buffer, read back as a C string: `s` up to its first NUL,
   * at most `n - 1` characters.
   */
  function CString(s: string, n: nat): (r: string)
    requires n >= 1
    ensures |r| <= n - 1 && |r| <= |s| && r == s[..|r|]
    ensures forall i :: 0 <= i < |r| ==> r[i] != '\0'
    ensures |r| < n - 1 && |r| < |s| ==> s[|r|] == '\0'
  {
    if s == [] || n == 1 || s[0] == '\0' then []
    else [s[0]] + CString(s[1..], n - 1)
  }

  /** A string that fits and has no NUL is stored unchanged. */
  lemma {:induction false} CStringFits(s: string, n: nat)
    requires n >= 1 && |s| <= n - 1 && forall i :: 0 <= i < |s| ==> s[i] != '\0'
    ensures CString(s, n) == s
  {
    if s != [] {
      CStringFits(s[1..], n - 1);
      assert s == [s[0]] + s[1..];
    }
  }

  /** `SDMHeader`; the seven table offsets are grouped. */
  datatype TableOffsets = TableOffsets(
    driver: nat, vehicle: nat, trip: nat, maintenance: nat, expense: nat, document: nat, incident: nat)

  datatype SDMHeader = SDMHeader(
    magic: string, version: nat, totalSize: nat, createdTime: nat, lastModified: nat, creatorInfo: string,
    offsets: TableOffsets, primaryIndexOffset: nat, secondaryIndexOffset: nat,
    maxDrivers: nat, maxVehicles: nat, maxTrips: nat)

  const DbMagic: string := "SDMDB001"

  /** A default-constructed `SDMHeader`. */
  const DefaultHeader := SDMHeader(
    DbMagic, 0x0001_0000, 0, 0, 0, "", TableOffsets(0, 0, 0, 0, 0, 0, 0), 0, 0, 10000, 50000, 10000000)

  /** `DriverProfile`. */
  datatype DriverProfile = DriverProfile(
    driverId: nat, username: string, passwordHash: string, role: UserRole, fullName: string, email: string,
    phone: string, licenseNumber: string, licenseExpiry: nat, totalTrips: nat, safetyScore: nat,
    harshEventsCount: nat, createdTime: nat, lastLogin: nat, isActive: nat,
    tripHistoryHead: nat, tripHistoryTail: nat)

  /** A default-constructed `DriverProfile`: id 0, role DRIVER, score 1000, and active. */
  const DefaultDriver := DriverProfile(0, "", "", Driver, "", "", "", "", 0, 0, 1000, 0, 0, 0, 1, 0, 0)

  /** `VehicleInfo`. */
  datatype VehicleInfo = VehicleInfo(
    vehicleId: nat, ownerDriverId: nat, licensePlate: string, make: string, model: string, year: nat,
    vehicleType: VehicleType, color: string, vin: string, engineCapacity: nat, fuelType: string,
    insuranceProvider: string, insurancePolicy: string, insuranceExpiry: nat, registrationExpiry: nat,
    lastMaintenanceDate: nat, nextMaintenanceDue: nat, createdTime: nat, isActive: nat)

  /** A default-constructed `VehicleInfo`: id 0, a sedan, and active. */
  const DefaultVehicle := VehicleInfo(0, 0, "", "", "", 0, Sedan, "", "", 0, "", "", "", 0, 0, 0, 0, 0, 1)

  /** `TripRecord`. */
  datatype TripRecord = TripRecord(
    tripId: nat, driverId: nat, vehicleId: nat, startTime: nat, endTime: nat, duration: nat,
    startAddress: string, endAddress: string, harshBrakingCount: nat, rapidAccelerationCount: nat,
    speedingCount: nat, sharpTurnCount: nat, gpsDataOffset: nat, gpsDataCount: nat, notes: string)

  const DefaultTrip := TripRecord(0, 0, 0, 0, 0, 0, "", "", 0, 0, 0, 0, 0, 0, "")

  /** `MaintenanceRecord`. */
  datatype MaintenanceRecord = MaintenanceRecord(
    maintenanceId: nat, vehicleId: nat, driverId: nat, maintenanceType: MaintenanceType, serviceDate: nat,
    serviceCenter: string, technician: string, description: string, currency: string, partsReplaced: string,
    nextServiceDate: nat, receiptDocId: nat, notes: string)

  /** A default-constructed `MaintenanceRecord`: id 0, a general service. */
  const DefaultMaintenance := MaintenanceRecord(0, 0, 0, GeneralService, 0, "", "", "", "", "", 0, 0, "")

  /** `ExpenseRecord`. */
  datatype ExpenseRecord = ExpenseRecord(
    expenseId: nat, driverId: nat, vehicleId: nat, tripId: nat, category: ExpenseCategory, expenseDate: nat,
    currency: string, description: string, fuelStation: string, paymentMethod: string, receiptNumber: string,
    isTaxDeductible: nat, receiptDocId: nat, notes: string)

  /** A default-constructed `ExpenseRecord`: id 0, category OTHER. */
  const DefaultExpense := ExpenseRecord(0, 0, 0, 0, Other, 0, "", "", "", "", "", 0, 0, "")

  /** `DocumentMetadata`. */
  datatype DocumentMetadata = DocumentMetadata(
    documentId: nat, ownerId: nat, ownerType: nat, filename: string, mimeType: string, fileSize: nat,
    uploadDate: nat, expiryDate: nat, dataOffset: nat, dataBlocks: nat, description: string, tags: string)

  const DefaultDocument := DocumentMetadata(0, 0, 0, "", "", 0, 0, 0, 0, 0, "", "")

  /** `IncidentReport`. */
  datatype IncidentReport = IncidentReport(
    incidentId: nat, driverId: nat, vehicleId: nat, tripId: nat, incidentType: IncidentType, incidentTime: nat,
    locationAddress: string, description: string, policeReportNumber: string, insuranceClaimNumber: string,
    otherPartyInfo: string, witnessInfo: string, currency: string, photoDocIds: seq<nat>, reportDocId: nat,
    isResolved: nat, resolvedDate: nat, notes: string)

  /** A default-constructed `IncidentReport`: id 0, an unresolved accident. */
  const DefaultIncident := IncidentReport(0, 0, 0, 0, Accident, 0, "", "", "", "", "", "", "", [0, 0, 0, 0, 0], 0, 0, 0, "")

  /** `SessionInfo`. */
  datatype SessionInfo = SessionInfo(
    sessionId: string, driverId: nat, loginTime: nat, lastActivity: nat, operationsCount: nat, ipAddress: string)

  const DefaultSession := SessionInfo("", 0, 0, 0, 0, "")

  /** `DatabaseStats`, without `total_distance` (a sum of floating-point distances) and `fragmentation`. */
  datatype DatabaseStats = DatabaseStats(
    totalDrivers: nat, activeDrivers: nat, totalVehicles: nat, totalTrips: nat,
    totalExpenses: nat, totalMaintenanceRecords: nat, totalDocuments: nat, totalIncidents: nat,
    databaseSize: nat, usedSpace: nat, activeSessions: nat)

  const DefaultStats := DatabaseStats(0, 0, 0, 0, 0, 0, 0, 0, 0, 0, 0)

  /** The defaults match the constructors: the sentinels the record heap relies on. */
  lemma Defaults()
    ensures DefaultHeader.magic == DbMagic && DefaultHeader.version == 0x0001_0000
    ensures DefaultHeader.maxDrivers == 10000 && DefaultHeader.maxVehicles == 50000 && DefaultHeader.maxTrips == 10000000
    ensures DefaultDriver.driverId == 0 && DefaultDriver.role.Code() == 0 && DefaultDriver.safetyScore == 1000 && DefaultDriver.isActive == 1
    ensures DefaultVehicle.vehicleId == 0 && DefaultVehicle.isActive == 1
    ensures DefaultTrip.tripId == 0 && DefaultMaintenance.maintenanceId == 0 && DefaultExpense.expenseId == 0
    ensures DefaultDocument.documentId == 0 && DefaultIncident.incidentId == 0 && |DefaultIncident.photoDocIds| == 5
  {
  }
}
