/** The tables of the fleet database, their rows, and the pure effect of the
    statements the handlers issue. */
module Schema {
  import opened Common
  import opened Query

  /** A column value as it arrives in a JSON request body and is stored. */
  datatype Value = Null | Bool(b: bool) | Num(n: int) | Text(s: string)

  /** The five columns createDriver and updateDriver write. */
  datatype DriverInfo = DriverInfo(
    firstName: string, lastName: string, licenseNumber: string, phone: string, email: string)

  /** The login columns of a driver row; createDriver leaves them to the
      column defaults of the schema. */
  datatype Account = Account(
    isActive: bool, passwordHash: string, passwordSalt: Option<string>, resetToken: Option<string>)

  datatype Driver = Driver(driverId: string, info: DriverInfo, account: Account)

  /** The five columns createVehicle and updateVehicle write. */
  datatype VehicleData = VehicleData(
    registrationNumber: string, make: string, model: string, year: int, vin: string)

  datatype Vehicle = Vehicle(vehicleId: string, data: VehicleData)

  datatype Admin = Admin(
    adminId: string, firstname: string, lastname: string, email: string,
    phoneNumber: string, passwordHash: string, passwordSalt: string)

  /** `inspection_date` defaults to the insertion time, in seconds. */
  datatype Inspection = Inspection(
    inspectionId: string, driverId: string, vehicleId: string, inspectedAt: int)

  // The field sets of the eight checklist sections.
  datatype EngineFields = EngineFields(engineOilLevel: Value, engineOilColor: Value, brakeOilLevel: Value)
  datatype AcFields = AcFields(status: Value)
  datatype DamageFields = DamageFields(damageType: Value, location: Value, isRecent: Value)
  datatype TireFields = TireFields(
    frontLeftCondition: Value, frontRightCondition: Value,
    backLeftCondition: Value, backRightCondition: Value)
  datatype GroundFields = GroundFields(oilOnFloor: Value, oilOnTires: Value)
  datatype LightFields = LightFields(fullLight: Value, dimLight: Value, brakeLight: Value)
  datatype SeatbeltFields = SeatbeltFields(
    frontLeft: Value, frontRight: Value, backLeft: Value, backRight: Value, backMiddle: Value)
  datatype ToolsFields = ToolsFields(
    spareTire: Value, jackWheelSpanner: Value, cautionTriangle: Value, fireExtinguisher: Value)

  /** A row of a checklist table: the owning inspection and the section's fields. */
  datatype Keyed<F> = Keyed(inspectionId: string, fields: F)

  /** The whole store as a value. */
  datatype Tables = Tables(
    drivers: seq<Driver>,
    vehicles: seq<Vehicle>,
    admins: seq<Admin>,
    inspections: seq<Inspection>,
    engineChecks: seq<Keyed<EngineFields>>,
    acStatus: seq<Keyed<AcFields>>,
    bodyDamages: seq<Keyed<DamageFields>>,
    tireChecks: seq<Keyed<TireFields>>,
    groundChecks: seq<Keyed<GroundFields>>,
    lightChecks: seq<Keyed<LightFields>>,
    seatbeltChecks: seq<Keyed<SeatbeltFields>>,
    toolsCheck: seq<Keyed<ToolsFields>>)

  // Key columns, for selections.
  function DriverKey(d: Driver): string { d.driverId }
  function VehicleKey(v: Vehicle): string { v.vehicleId }
  function AdminKey(a: Admin): string { a.adminId }
  function AdminEmail(a: Admin): string { a.email }
  function InspectionKey(i: Inspection): string { i.inspectionId }
  function InspectionVehicle(i: Inspection): string { i.vehicleId }
  function ChildKey<F>(r: Keyed<F>): string { r.inspectionId }

  /** One row of one checklist table. */
  datatype ChildRow =
    | EngineRow(engine: Keyed<EngineFields>)
    | AcRow(ac: Keyed<AcFields>)
    | DamageRow(damage: Keyed<DamageFields>)
    | TireRow(tire: Keyed<TireFields>)
    | GroundRow(ground: Keyed<GroundFields>)
    | LightRow(light: Keyed<LightFields>)
    | SeatbeltRow(seatbelt: Keyed<SeatbeltFields>)
    | ToolsRow(tools: Keyed<ToolsFields>)
  {
    function InspectionId(): string
    {
      match this
      case EngineRow(r) => r.inspectionId
      case AcRow(r) => r.inspectionId
      case DamageRow(r) => r.inspectionId
      case TireRow(r) => r.inspectionId
      case GroundRow(r) => r.inspectionId
      case LightRow(r) => r.inspectionId
      case SeatbeltRow(r) => r.inspectionId
      case ToolsRow(r) => r.inspectionId
    }
  }

  /** The effect of one child INSERT: the row is appended to its table. */
  function AddChild(t: Tables, c: ChildRow): Tables
  {
    match c
    case EngineRow(r) => t.(engineChecks := t.engineChecks + [r])
    case AcRow(r) => t.(acStatus := t.acStatus + [r])
    case DamageRow(r) => t.(bodyDamages := t.bodyDamages + [r])
    case TireRow(r) => t.(tireChecks := t.tireChecks + [r])
    case GroundRow(r) => t.(groundChecks := t.groundChecks + [r])
    case LightRow(r) => t.(lightChecks := t.lightChecks + [r])
    case SeatbeltRow(r) => t.(seatbeltChecks := t.seatbeltChecks + [r])
    case ToolsRow(r) => t.(toolsCheck := t.toolsCheck + [r])
  }

  /** The effect of a sequence of child INSERTs, in order. */
  function AddChildren(t: Tables, cs: seq<ChildRow>): Tables
    decreases |cs|
  {
    if cs == [] then t else AddChildren(AddChild(t, cs[0]), cs[1..])
  }

  lemma {:induction false} AddChildrenAppend(t: Tables, a: seq<ChildRow>, b: seq<ChildRow>)
    ensures AddChildren(t, a + b) == AddChildren(AddChildren(t, a), b)
    decreases |a|
  {
    if a == [] {
      assert a + b == b;
    } else {
      assert (a + b)[1..] == a[1..] + b;
      AddChildrenAppend(AddChild(t, a[0]), a[1..], b);
    }
  }

  /** Child inserts touch only the eight checklist tables. */
  lemma {:induction false} AddChildrenKeepsParents(t: Tables, cs: seq<ChildRow>)
    ensures AddChildren(t, cs).drivers == t.drivers
    ensures AddChildren(t, cs).vehicles == t.vehicles
    ensures AddChildren(t, cs).admins == t.admins
    ensures AddChildren(t, cs).inspections == t.inspections
    decreases |cs|
  {
    if cs != [] {
      AddChildrenKeepsParents(AddChild(t, cs[0]), cs[1..]);
    }
  }

  /** `UPDATE drivers SET <five columns> WHERE driver_id = id`. */
  function UpdateDrivers(ds: seq<Driver>, id: string, info: DriverInfo): (r: seq<Driver>)
    ensures |r| == |ds|
    ensures forall i :: 0 <= i < |ds| ==>
              && r[i].driverId == ds[i].driverId
              && r[i].account == ds[i].account
              && r[i].info == (if ds[i].driverId == id then info else ds[i].info)
  {
    seq(|ds|, i requires 0 <= i < |ds| => if ds[i].driverId == id then ds[i].(info := info) else ds[i])
  }

  /** `UPDATE vehicles SET <five columns> WHERE vehicle_id = id`. */
  function UpdateVehicles(vs: seq<Vehicle>, id: string, data: VehicleData): (r: seq<Vehicle>)
    ensures |r| == |vs|
    ensures forall i :: 0 <= i < |vs| ==>
              && r[i].vehicleId == vs[i].vehicleId
              && r[i].data == (if vs[i].vehicleId == id then data else vs[i].data)
  {
    seq(|vs|, i requires 0 <= i < |vs| => if vs[i].vehicleId == id then vs[i].(data := data) else vs[i])
  }

  function InspectionIds(ins: seq<Inspection>): set<string>
  {
    set i | i in ins :: i.inspectionId
  }

  /** Every checklist row belongs to a stored inspection. */
  ghost predicate Parented<F>(rows: seq<Keyed<F>>, ins: seq<Inspection>)
  {
    forall r :: r in rows ==> r.inspectionId in InspectionIds(ins)
  }

  /** The integrity the schema's primary keys guarantee, and that every
      checklist row has its parent inspection (the write path only ever
      creates them together). */
  ghost predicate Consistent(t: Tables)
  {
    && UniqueKeys(t.drivers, DriverKey)
    && UniqueKeys(t.vehicles, VehicleKey)
    && UniqueKeys(t.admins, AdminKey)
    && UniqueKeys(t.inspections, InspectionKey)
    && Parented(t.engineChecks, t.inspections)
    && Parented(t.acStatus, t.inspections)
    && Parented(t.bodyDamages, t.inspections)
    && Parented(t.tireChecks, t.inspections)
    && Parented(t.groundChecks, t.inspections)
    && Parented(t.lightChecks, t.inspections)
    && Parented(t.seatbeltChecks, t.inspections)
    && Parented(t.toolsCheck, t.inspections)
  }

  /** A new inspection with a free key keeps the store consistent: its key
      is unique and every checklist row still has its parent. */
  lemma ConsistentAddInspection(t: Tables, i: Inspection)
    requires Consistent(t)
    requires Where(t.inspections, InspectionKey, i.inspectionId) == []
    ensures Consistent(t.(inspections := t.inspections + [i]))
  {
    UniqueAppend(t.inspections, InspectionKey, i);
    assert InspectionIds(t.inspections) <= InspectionIds(t.inspections + [i]);
  }

  /** A checklist INSERT on a consistent store keeps it consistent exactly
      when the row's inspection is stored: an orphan row breaks it. */
  lemma ConsistentAddChild(t: Tables, c: ChildRow)
    requires Consistent(t)
    ensures Consistent(AddChild(t, c)) <==> c.InspectionId() in InspectionIds(t.inspections)
  {
    var t' := AddChild(t, c);
    assert t'.inspections == t.inspections;
    match c
    case EngineRow(r) => assert r in t'.engineChecks;
    case AcRow(r) => assert r in t'.acStatus;
    case DamageRow(r) => assert r in t'.bodyDamages;
    case TireRow(r) => assert r in t'.tireChecks;
    case GroundRow(r) => assert r in t'.groundChecks;
    case LightRow(r) => assert r in t'.lightChecks;
    case SeatbeltRow(r) => assert r in t'.seatbeltChecks;
    case ToolsRow(r) => assert r in t'.toolsCheck;
  }
}
