/** The database the handlers talk to through the connection pool, held in
    memory: one sequence of rows per table, a count of connections taken
    from the pool, and the state saved by BEGIN for a ROLLBACK. Each method
    below is one SQL statement and says what it returns (affectedRows, or
    whether a primary-key insert went through) and what it writes; its
    frame names the fields it may write. Each parent-table write keeps
    `Valid()` when it held before; a checklist INSERT keeps it exactly when
    its row's inspection is stored; ROLLBACK restores whatever BEGIN saw. */
module Store {
  import opened Common
  import opened Query
  import opened Schema

  /** A stand-in for the message of MySQL's duplicate-key error, which reads
      "Duplicate entry '<value>' for key '<table>.PRIMARY'" and so names the
      value and the table; the error reaches the error handler, which
      answers 500. */
  const DuplicateKey := "Duplicate entry for key 'PRIMARY'"

  class Database {
    var drivers: seq<Driver>
    var vehicles: seq<Vehicle>
    var admins: seq<Admin>
    var inspections: seq<Inspection>
    var engineChecks: seq<Keyed<EngineFields>>
    var acStatus: seq<Keyed<AcFields>>
    var bodyDamages: seq<Keyed<DamageFields>>
    var tireChecks: seq<Keyed<TireFields>>
    var groundChecks: seq<Keyed<GroundFields>>
    var lightChecks: seq<Keyed<LightFields>>
    var seatbeltChecks: seq<Keyed<SeatbeltFields>>
    var toolsCheck: seq<Keyed<ToolsFields>>

    /** Connections currently taken from the pool by a transaction. */
    var connectionsInUse: nat
    /** The tables as BEGIN saw them, while a transaction is open. */
    var savepoint: Option<Tables>

    /** The contents of all tables. */
    function Snapshot(): Tables
      reads this
    {
      Tables(drivers, vehicles, admins, inspections, engineChecks, acStatus, bodyDamages,
             tireChecks, groundChecks, lightChecks, seatbeltChecks, toolsCheck)
    }

    ghost predicate Valid()
      reads this
    {
      Consistent(Snapshot())
    }

    constructor ()
      ensures Snapshot() == Tables([], [], [], [], [], [], [], [], [], [], [], [])
      ensures Valid()
      ensures connectionsInUse == 0 && savepoint == None
    {
      drivers, vehicles, admins, inspections := [], [], [], [];
      engineChecks, acStatus, bodyDamages, tireChecks := [], [], [], [];
      groundChecks, lightChecks, seatbeltChecks, toolsCheck := [], [], [], [];
      connectionsInUse, savepoint := 0, None;
    }

    /** `INSERT INTO drivers`; refused when the primary key is taken. */
    method InsertDriver(d: Driver) returns (ok: bool)
      modifies this`drivers
      ensures ok <==> Where(old(drivers), DriverKey, d.driverId) == []
      ensures drivers == if ok then old(drivers) + [d] else old(drivers)
      ensures old(Valid()) ==> Valid()
    {
      ghost var t := Snapshot();
      ok := Where(drivers, DriverKey, d.driverId) == [];
      if ok {
        drivers := drivers + [d];
        if Consistent(t) {
          UniqueAppend(t.drivers, DriverKey, d);
        }
      }
    }

    /** `UPDATE drivers SET ... WHERE driver_id = id`. */
    method UpdateDriver(id: string, info: DriverInfo) returns (affected: nat)
      modifies this`drivers
      ensures affected == |Where(old(drivers), DriverKey, id)|
      ensures drivers == UpdateDrivers(old(drivers), id, info)
      ensures old(Valid()) ==> Valid()
    {
      ghost var t := Snapshot();
      affected := |Where(drivers, DriverKey, id)|;
      drivers := UpdateDrivers(drivers, id, info);
      if Consistent(t) {
        UniqueSameKeys(t.drivers, drivers, DriverKey);
      }
    }

    /** `DELETE FROM drivers WHERE driver_id = id`. */
    method DeleteDriver(id: string) returns (affected: nat)
      modifies this`drivers
      ensures affected == |Where(old(drivers), DriverKey, id)|
      ensures drivers == Except(old(drivers), DriverKey, id)
      ensures old(Valid()) ==> Valid()
    {
      ghost var t := Snapshot();
      affected := |Where(drivers, DriverKey, id)|;
      drivers := Except(drivers, DriverKey, id);
      if Consistent(t) {
        UniqueExcept(t.drivers, DriverKey, id);
      }
    }

    /** `INSERT INTO vehicles`; refused when the primary key is taken. */
    method InsertVehicle(v: Vehicle) returns (ok: bool)
      modifies this`vehicles
      ensures ok <==> Where(old(vehicles), VehicleKey, v.vehicleId) == []
      ensures vehicles == if ok then old(vehicles) + [v] else old(vehicles)
      ensures old(Valid()) ==> Valid()
    {
      ghost var t := Snapshot();
      ok := Where(vehicles, VehicleKey, v.vehicleId) == [];
      if ok {
        vehicles := vehicles + [v];
        if Consistent(t) {
          UniqueAppend(t.vehicles, VehicleKey, v);
        }
      }
    }

    /** `UPDATE vehicles SET ... WHERE vehicle_id = id`. */
    method UpdateVehicle(id: string, data: VehicleData) returns (affected: nat)
      modifies this`vehicles
      ensures affected == |Where(old(vehicles), VehicleKey, id)|
      ensures vehicles == UpdateVehicles(old(vehicles), id, data)
      ensures old(Valid()) ==> Valid()
    {
      ghost var t := Snapshot();
      affected := |Where(vehicles, VehicleKey, id)|;
      vehicles := UpdateVehicles(vehicles, id, data);
      if Consistent(t) {
        UniqueSameKeys(t.vehicles, vehicles, VehicleKey);
      }
    }

    /** `DELETE FROM vehicles WHERE vehicle_id = id`. */
    method DeleteVehicle(id: string) returns (affected: nat)
      modifies this`vehicles
      ensures affected == |Where(old(vehicles), VehicleKey, id)|
      ensures vehicles == Except(old(vehicles), VehicleKey, id)
      ensures old(Valid()) ==> Valid()
    {
      ghost var t := Snapshot();
      affected := |Where(vehicles, VehicleKey, id)|;
      vehicles := Except(vehicles, VehicleKey, id);
      if Consistent(t) {
        UniqueExcept(t.vehicles, VehicleKey, id);
      }
    }

    /** `INSERT INTO admins`; refused when the primary key is taken. */
    method InsertAdmin(a: Admin) returns (ok: bool)
      modifies this`admins
      ensures ok <==> Where(old(admins), AdminKey, a.adminId) == []
      ensures admins == if ok then old(admins) + [a] else old(admins)
      ensures old(Valid()) ==> Valid()
    {
      ghost var t := Snapshot();
      ok := Where(admins, AdminKey, a.adminId) == [];
      if ok {
        admins := admins + [a];
        if Consistent(t) {
          UniqueAppend(t.admins, AdminKey, a);
        }
      }
    }

    /** `INSERT INTO inspections`; refused when the primary key is taken. */
    method InsertInspection(i: Inspection) returns (ok: bool)
      modifies this`inspections
      ensures ok <==> Where(old(inspections), InspectionKey, i.inspectionId) == []
      ensures inspections == if ok then old(inspections) + [i] else old(inspections)
      ensures old(Valid()) ==> Valid()
    {
      ghost var t := Snapshot();
      ok := Where(inspections, InspectionKey, i.inspectionId) == [];
      if ok {
        inspections := inspections + [i];
        if Consistent(t) {
          ConsistentAddInspection(t, i);
        }
      }
    }

    /** One INSERT into a checklist table. */
    method InsertChild(c: ChildRow)
      modifies this`engineChecks, this`acStatus, this`bodyDamages, this`tireChecks
      modifies this`groundChecks, this`lightChecks, this`seatbeltChecks, this`toolsCheck
      ensures Snapshot() == AddChild(old(Snapshot()), c)
      ensures old(Valid()) ==> (Valid() <==> c.InspectionId() in InspectionIds(inspections))
    {
      ghost var t := Snapshot();
      match c {
      case EngineRow(r) => engineChecks := engineChecks + [r];
      case AcRow(r) => acStatus := acStatus + [r];
      case DamageRow(r) => bodyDamages := bodyDamages + [r];
      case TireRow(r) => tireChecks := tireChecks + [r];
      case GroundRow(r) => groundChecks := groundChecks + [r];
      case LightRow(r) => lightChecks := lightChecks + [r];
      case SeatbeltRow(r) => seatbeltChecks := seatbeltChecks + [r];
      case ToolsRow(r) => toolsCheck := toolsCheck + [r];
      }
      assert Snapshot() == AddChild(t, c);
      if Consistent(t) {
        ConsistentAddChild(t, c);
      }
    }

    /** `pool.getConnection()`. */
    method Acquire()
      modifies this`connectionsInUse
      ensures connectionsInUse == old(connectionsInUse) + 1
    {
      connectionsInUse := connectionsInUse + 1;
    }

    /** `connection.release()`. */
    method Release()
      requires connectionsInUse > 0
      modifies this`connectionsInUse
      ensures connectionsInUse == old(connectionsInUse) - 1
    {
      connectionsInUse := connectionsInUse - 1;
    }

    /** `connection.beginTransaction()`. */
    method Begin()
      modifies this`savepoint
      ensures savepoint == Some(Snapshot())
    {
      savepoint := Some(Snapshot());
    }

    /** `connection.commit()`: the writes since BEGIN stay. */
    method Commit()
      modifies this`savepoint
      ensures savepoint == None
    {
      savepoint := None;
    }

    /** `connection.rollback()`: every table is back to what BEGIN saw. */
    method Rollback()
      requires savepoint.Some?
      modifies this
      ensures Snapshot() == old(savepoint.value)
      ensures Valid() <==> Consistent(old(savepoint.value))
      ensures savepoint == None
      ensures connectionsInUse == old(connectionsInUse)
    {
      var t := savepoint.value;
      drivers, vehicles, admins, inspections := t.drivers, t.vehicles, t.admins, t.inspections;
      engineChecks, acStatus, bodyDamages, tireChecks := t.engineChecks, t.acStatus, t.bodyDamages, t.tireChecks;
      groundChecks, lightChecks := t.groundChecks, t.lightChecks;
      seatbeltChecks, toolsCheck := t.seatbeltChecks, t.toolsCheck;
      savepoint := None;
    }
  }
}
