/** CRUD on the vehicles table and a vehicle's inspection history. The new
    vehicle id (nanoid) is supplied by the caller. */
module VehicleController {
  import opened Common
  import opened Query
  import opened Ordering
  import opened Schema
  import opened Store

  const NoVehicle := "No vehicle found with that ID"
  const VehicleNotDeleted := "Vehicle could not be deleted"

  /** `LIMIT 30` of the history query. */
  const HistoryLimit := 30

  /** createVehicle: one row with the fresh id and the five given fields,
      returned with 201 as the follow-up SELECT reads it back. */
  method CreateVehicle(db: Database, newId: string, data: VehicleData) returns (r: Response<Vehicle>)
    modifies db`vehicles
    ensures old(db.Valid()) ==> db.Valid()
    ensures r.Success? <==> Where(old(db.vehicles), VehicleKey, newId) == []
    ensures r.Success? ==> r == Success(201, Vehicle(newId, data))
    ensures r.Success? ==> db.vehicles == old(db.vehicles) + [Vehicle(newId, data)]
    ensures r.Error? ==> r == Error(500, DuplicateKey) && db.vehicles == old(db.vehicles)
  {
    var ok := db.InsertVehicle(Vehicle(newId, data));
    if !ok {
      return Error(500, DuplicateKey);
    }
    var rows := Where(db.vehicles, VehicleKey, newId);
    WhereAppend(old(db.vehicles), [Vehicle(newId, data)], VehicleKey, newId);
    r := Success(201, rows[0]);
  }

  /** `ORDER BY make, model`. */
  predicate MakeModelLe(a: Vehicle, b: Vehicle)
  {
    PairLe(a.data.make, a.data.model, b.data.make, b.data.model)
  }

  lemma MakeModelOrderIsTotal()
    ensures TotalPreorder(MakeModelLe)
  {
    forall a: Vehicle, b: Vehicle, c: Vehicle
      ensures MakeModelLe(a, b) || MakeModelLe(b, a)
      ensures MakeModelLe(a, b) && MakeModelLe(b, c) ==> MakeModelLe(a, c)
    {
      PairLeFacts(a.data.make, a.data.model, b.data.make, b.data.model, c.data.make, c.data.model);
    }
  }

  /** getAllVehicles: every vehicle, by make then model, with the count. */
  function GetAllVehicles(vs: seq<Vehicle>): (r: Response<Listing<Vehicle>>)
    ensures r.Success? && r.code == 200
    ensures r.data.results == |r.data.items| == |vs|
    ensures multiset(r.data.items) == multiset(vs)
    ensures SortedBy(r.data.items, MakeModelLe)
  {
    MakeModelOrderIsTotal();
    SortBySorted(vs, MakeModelLe);
    var rows := SortBy(vs, MakeModelLe);
    Success(200, Listing(|rows|, rows))
  }

  /** getVehicle: the row with that id, or 404. */
  function GetVehicle(vs: seq<Vehicle>, id: string): (r: Response<Vehicle>)
    ensures r.Error? <==> forall v :: v in vs ==> v.vehicleId != id
    ensures r.Error? ==> r == Error(404, NoVehicle)
    ensures r.Success? ==> r.code == 200 && r.data in vs && r.data.vehicleId == id
  {
    var rows := Where(vs, VehicleKey, id);
    if rows == [] then Error(404, NoVehicle)
    else
      assert rows[0] in rows;
      Success(200, rows[0])
  }

  /** updateVehicle: the five fields of the matching row are overwritten; its
      id and every other row stay. 404 when nothing matches. */
  method UpdateVehicle(db: Database, id: string, data: VehicleData) returns (r: Response<Vehicle>)
    modifies db`vehicles
    ensures old(db.Valid()) ==> db.Valid()
    ensures db.vehicles == UpdateVehicles(old(db.vehicles), id, data)
    ensures r.Error? <==> forall v :: v in old(db.vehicles) ==> v.vehicleId != id
    ensures r.Error? ==> r == Error(404, NoVehicle) && db.vehicles == old(db.vehicles)
    ensures r.Success? ==> r.code == 200 && r.data in db.vehicles && r.data == Vehicle(id, data)
  {
    var affected := db.UpdateVehicle(id, data);
    if affected == 0 {
      UpdateVehicleWithoutMatch(old(db.vehicles), id, data);
      return Error(404, NoVehicle);
    }
    var rows := Where(db.vehicles, VehicleKey, id);
    ghost var k :| 0 <= k < |old(db.vehicles)| && old(db.vehicles)[k].vehicleId == id by {
      var x := Where(old(db.vehicles), VehicleKey, id)[0];
      assert x in Where(old(db.vehicles), VehicleKey, id);
    }
    assert db.vehicles[k] in rows;
    r := Success(200, rows[0]);
    assert rows[0] in db.vehicles;
  }

  /** An update whose id matches no row leaves the table as it was. */
  lemma UpdateVehicleWithoutMatch(vs: seq<Vehicle>, id: string, data: VehicleData)
    requires |Where(vs, VehicleKey, id)| == 0
    ensures UpdateVehicles(vs, id, data) == vs
  {
    forall i | 0 <= i < |vs| ensures UpdateVehicles(vs, id, data)[i] == vs[i] {
      assert vs[i] !in Where(vs, VehicleKey, id);
    }
  }

  /** deleteVehicle: 404 when absent; otherwise the row goes and the answer
      is 204 with no data. The 500 branch cannot be taken without a
      concurrent delete between the check and the DELETE. */
  method DeleteVehicle(db: Database, id: string) returns (r: Response<()>)
    modifies db`vehicles
    ensures old(db.Valid()) ==> db.Valid()
    ensures r.Error? <==> forall v :: v in old(db.vehicles) ==> v.vehicleId != id
    ensures r.Error? ==> r == Error(404, NoVehicle) && db.vehicles == old(db.vehicles)
    ensures r.Success? ==> r == Success(204, ()) && db.vehicles == Except(old(db.vehicles), VehicleKey, id)
  {
    var found := Where(db.vehicles, VehicleKey, id);
    if found == [] {
      return Error(404, NoVehicle);
    }
    assert found[0] in found;
    var affected := db.DeleteVehicle(id);
    if affected == 0 {
      return Error(500, VehicleNotDeleted);
    }
    r := Success(204, ());
  }

  /** After a delete the vehicle is not found, every other vehicle still is,
      and with unique ids exactly the one row has gone. */
  lemma DeletedVehicleIsGone(vs: seq<Vehicle>, i: nat, other: string)
    requires i < |vs| && UniqueKeys(vs, VehicleKey)
    requires other != vs[i].vehicleId
    ensures GetVehicle(Except(vs, VehicleKey, vs[i].vehicleId), vs[i].vehicleId) == Error(404, NoVehicle)
    ensures GetVehicle(Except(vs, VehicleKey, vs[i].vehicleId), other).Success? <==> GetVehicle(vs, other).Success?
    ensures Except(vs, VehicleKey, vs[i].vehicleId) == vs[..i] + vs[i + 1..]
  {
    ExceptUniqueKey(vs, VehicleKey, i);
  }

  /** `SELECT make, model, year FROM vehicles`. */
  datatype VehicleSummary = VehicleSummary(make: string, model: string, year: int)

  /** One row of the history: the inspection, its driver's first name, and
      whether any body damage was recorded for it. */
  datatype HistoryEntry = HistoryEntry(
    inspectionId: string, inspectedAt: int, driverName: string, hasDamages: bool)

  /** The answer of getVehicleInspections; `vehicle` is `vehicle[0]`, absent
      for an unknown id. */
  datatype History = History(vehicle: Option<VehicleSummary>, inspections: seq<HistoryEntry>)

  /** `EXISTS(SELECT 1 FROM body_damages WHERE inspection_id = id)`. */
  function HasDamages(damages: seq<Keyed<DamageFields>>, id: string): (has: bool)
    ensures has <==> exists r :: r in damages && r.inspectionId == id
  {
    var w := Where(damages, ChildKey, id);
    assert w != [] ==> w[0] in w;
    w != []
  }

  /** The history row for inspection i driven by d. */
  function Entry(i: Inspection, d: Driver, damages: seq<Keyed<DamageFields>>): HistoryEntry
  {
    HistoryEntry(i.inspectionId, i.inspectedAt, d.info.firstName, HasDamages(damages, i.inspectionId))
  }

  /** The join of one inspection with the drivers it names. */
  function EntriesFor(i: Inspection, ds: seq<Driver>, damages: seq<Keyed<DamageFields>>): (r: seq<HistoryEntry>)
    ensures forall e :: e in r <==> exists d :: d in ds && d.driverId == i.driverId && e == Entry(i, d, damages)
    decreases |ds|
  {
    if ds == [] then []
    else
      var rest := EntriesFor(i, ds[1..], damages);
      assert forall d :: d in ds <==> d == ds[0] || d in ds[1..];
      (if ds[0].driverId == i.driverId then [Entry(i, ds[0], damages)] else []) + rest
  }

  /** `FROM inspections i JOIN drivers d ON i.driver_id = d.driver_id`:
      an inspection whose driver row is gone has no history row. */
  function HistoryJoin(ins: seq<Inspection>, ds: seq<Driver>, damages: seq<Keyed<DamageFields>>): (r: seq<HistoryEntry>)
    ensures forall e :: e in r <==>
              exists i, d :: i in ins && d in ds && d.driverId == i.driverId && e == Entry(i, d, damages)
    decreases |ins|
  {
    if ins == [] then []
    else
      var rest := HistoryJoin(ins[1..], ds, damages);
      assert forall i :: i in ins <==> i == ins[0] || i in ins[1..];
      EntriesFor(ins[0], ds, damages) + rest
  }

  /** The entries of one inspection are one per driver row with its driver
      id, in table order. */
  lemma {:induction false} EntriesForRows(i: Inspection, ds: seq<Driver>, damages: seq<Keyed<DamageFields>>)
    ensures var w := Where(ds, DriverKey, i.driverId);
            var r := EntriesFor(i, ds, damages);
            |r| == |w| && forall k :: 0 <= k < |w| ==> r[k] == Entry(i, w[k], damages)
    decreases |ds|
  {
    if ds != [] {
      EntriesForRows(i, ds[1..], damages);
    }
  }

  /** The join distributes over concatenation of inspections: inspections
      contribute their entries in table order. */
  lemma {:induction false} HistoryJoinAppend(a: seq<Inspection>, b: seq<Inspection>, ds: seq<Driver>,
                                             damages: seq<Keyed<DamageFields>>)
    ensures HistoryJoin(a + b, ds, damages) == HistoryJoin(a, ds, damages) + HistoryJoin(b, ds, damages)
    decreases |a|
  {
    if a == [] {
      assert a + b == b;
    } else {
      assert (a + b)[0] == a[0] && (a + b)[1..] == a[1..] + b;
      HistoryJoinCons(a + b, ds, damages);
      HistoryJoinCons(a, ds, damages);
      HistoryJoinAppend(a[1..], b, ds, damages);
      AppendAssoc(EntriesFor(a[0], ds, damages), HistoryJoin(a[1..], ds, damages), HistoryJoin(b, ds, damages));
    }
  }

  lemma HistoryJoinCons(a: seq<Inspection>, ds: seq<Driver>, damages: seq<Keyed<DamageFields>>)
    requires a != []
    ensures HistoryJoin(a, ds, damages) == EntriesFor(a[0], ds, damages) + HistoryJoin(a[1..], ds, damages)
  {
  }

  /** A single inspection contributes exactly its own entries. */
  lemma HistoryJoinOne(i: Inspection, ds: seq<Driver>, damages: seq<Keyed<DamageFields>>)
    ensures HistoryJoin([i], ds, damages) == EntriesFor(i, ds, damages)
  {
    assert [i][1..] == [];
  }

  /** With unique driver ids each inspection gives at most one entry, and
      exactly one when its driver exists. */
  lemma {:induction false} HistoryJoinCount(ins: seq<Inspection>, ds: seq<Driver>, damages: seq<Keyed<DamageFields>>)
    requires UniqueKeys(ds, DriverKey)
    ensures |HistoryJoin(ins, ds, damages)| <= |ins|
    ensures (forall i :: i in ins ==> exists d :: d in ds && d.driverId == i.driverId)
            ==> |HistoryJoin(ins, ds, damages)| == |ins|
    decreases |ins|
  {
    if ins != [] {
      HistoryJoinCount(ins[1..], ds, damages);
      EntriesForRows(ins[0], ds, damages);
      WhereAtMostOne(ds, DriverKey, ins[0].driverId);
      assert ins[0] in ins;
    }
  }

  /** `ORDER BY i.inspection_date DESC`. */
  predicate Newer(a: HistoryEntry, b: HistoryEntry)
  {
    a.inspectedAt >= b.inspectedAt
  }

  /** The joined history rows of one vehicle, before ordering and limit. */
  function VehicleRows(t: Tables, vehicleId: string): (rows: seq<HistoryEntry>)
    ensures forall e :: e in rows <==>
              exists i, d :: i in t.inspections && i.vehicleId == vehicleId && d in t.drivers
                             && d.driverId == i.driverId && e == Entry(i, d, t.bodyDamages)
  {
    HistoryJoin(Where(t.inspections, InspectionVehicle, vehicleId), t.drivers, t.bodyDamages)
  }

  /** With unique driver ids the history has at most one row per inspection
      of the vehicle, and exactly one per inspection when every driver
      still exists. */
  lemma VehicleRowsCount(t: Tables, vehicleId: string)
    requires UniqueKeys(t.drivers, DriverKey)
    ensures |VehicleRows(t, vehicleId)| <= |Where(t.inspections, InspectionVehicle, vehicleId)|
    ensures (forall i :: i in t.inspections && i.vehicleId == vehicleId ==>
               exists d :: d in t.drivers && d.driverId == i.driverId)
            ==> |VehicleRows(t, vehicleId)| == |Where(t.inspections, InspectionVehicle, vehicleId)|
  {
    HistoryJoinCount(Where(t.inspections, InspectionVehicle, vehicleId), t.drivers, t.bodyDamages);
  }

  function Summary(v: Vehicle): VehicleSummary
  {
    VehicleSummary(v.data.make, v.data.model, v.data.year)
  }

  /** `ORDER BY i.inspection_date DESC LIMIT 30` over the joined rows: the
      most recent rows, newest first. */
  function MostRecent(all: seq<HistoryEntry>): (page: seq<HistoryEntry>)
    ensures |page| == if |all| < HistoryLimit then |all| else HistoryLimit
    ensures multiset(page) <= multiset(all)
    ensures SortedBy(page, Newer)
    ensures forall x, y :: x in page && y in multiset(all) - multiset(page) ==> y.inspectedAt <= x.inspectedAt
    ensures |all| <= HistoryLimit ==> multiset(page) == multiset(all)
  {
    assert TotalPreorder(Newer);
    SortBySorted(all, Newer);
    var sorted := SortBy(all, Newer);
    var n := if |sorted| < HistoryLimit then |sorted| else HistoryLimit;
    NewestFirst(sorted, n);
    assert n == |sorted| ==> sorted[..n] == sorted;
    sorted[..n]
  }

  /** A prefix of the newest-first rows is newest first, and no row after it
      is newer than a row in it. */
  lemma NewestFirst(sorted: seq<HistoryEntry>, n: nat)
    requires SortedBy(sorted, Newer) && n <= |sorted|
    ensures multiset(sorted[..n]) <= multiset(sorted)
    ensures SortedBy(sorted[..n], Newer)
    ensures forall x, y :: x in sorted[..n] && y in multiset(sorted) - multiset(sorted[..n]) ==> y.inspectedAt <= x.inspectedAt
  {
    SortedPrefix(sorted, Newer, n);
    assert sorted == sorted[..n] + sorted[n..];
    assert multiset(sorted) == multiset(sorted[..n]) + multiset(sorted[n..]);
    forall y | y in multiset(sorted) - multiset(sorted[..n]) ensures y in sorted[n..] {
      assert y in multiset(sorted[n..]);
    }
  }

  /** getVehicleInspections: the vehicle's most recent (at most 30) joined
      inspections, newest first, and the vehicle's make/model/year when the
      vehicle exists. It never answers not-found. */
  function GetVehicleInspections(t: Tables, vehicleId: string): (r: Response<History>)
    ensures r.Success? && r.code == 200
    ensures r.data.inspections == MostRecent(VehicleRows(t, vehicleId))
    ensures r.data.vehicle.None? <==> forall v :: v in t.vehicles ==> v.vehicleId != vehicleId
    ensures r.data.vehicle.Some? ==>
              exists v :: v in t.vehicles && v.vehicleId == vehicleId && r.data.vehicle.value == Summary(v)
  {
    var page := MostRecent(VehicleRows(t, vehicleId));
    var found := Where(t.vehicles, VehicleKey, vehicleId);
    if found == [] then Success(200, History(None, page))
    else
      assert found[0] in found;
      Success(200, History(Some(Summary(found[0])), page))
  }

  /** A vehicle with at most 30 inspections, all of whose drivers exist,
      gets all of them back: one entry per inspection. */
  lemma AllHistoryWhenFew(t: Tables, vehicleId: string)
    requires UniqueKeys(t.drivers, DriverKey)
    requires forall i :: i in t.inspections && i.vehicleId == vehicleId ==>
               exists d :: d in t.drivers && d.driverId == i.driverId
    requires |Where(t.inspections, InspectionVehicle, vehicleId)| <= HistoryLimit
    ensures var page := GetVehicleInspections(t, vehicleId).data.inspections;
            && |page| == |Where(t.inspections, InspectionVehicle, vehicleId)|
            && multiset(page) == multiset(VehicleRows(t, vehicleId))
  {
    VehicleRowsCount(t, vehicleId);
  }

  /** Each history row reports damage exactly when a body_damages row names
      its inspection, and each comes from an inspection of this vehicle by a
      driver that still exists. */
  lemma HistoryEntryMeaning(t: Tables, vehicleId: string, e: HistoryEntry)
    requires e in GetVehicleInspections(t, vehicleId).data.inspections
    ensures e.hasDamages <==> exists r :: r in t.bodyDamages && r.inspectionId == e.inspectionId
    ensures exists i, d :: i in t.inspections && i.vehicleId == vehicleId && d in t.drivers
                           && i.driverId == d.driverId && i.inspectionId == e.inspectionId
                           && i.inspectedAt == e.inspectedAt && d.info.firstName == e.driverName
  {
    var page := GetVehicleInspections(t, vehicleId).data.inspections;
    assert e in multiset(page);
    assert e in VehicleRows(t, vehicleId);
    var i, d :| i in t.inspections && i.vehicleId == vehicleId && d in t.drivers
                && d.driverId == i.driverId && e == Entry(i, d, t.bodyDamages);
  }
}
