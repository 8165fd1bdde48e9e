/** CRUD on the drivers table. The new driver id (nanoid) is supplied by the
    caller; the login columns a new row gets are the schema's defaults,
    also supplied by the caller. */
module DriverController {
  import opened Common
  import opened Query
  import opened Ordering
  import opened Schema
  import opened Store

  const NoDriver := "No driver found with that ID"
  const DriverNotDeleted := "Driver could not be deleted"

  /** createDriver: one row with the fresh id and the five given fields,
      returned with 201 as the follow-up SELECT reads it back. */
  method CreateDriver(db: Database, newId: string, info: DriverInfo, defaults: Account)
    returns (r: Response<Driver>)
    modifies db`drivers
    ensures old(db.Valid()) ==> db.Valid()
    ensures r.Success? <==> Where(old(db.drivers), DriverKey, newId) == []
    ensures r.Success? ==> r == Success(201, Driver(newId, info, defaults))
    ensures r.Success? ==> db.drivers == old(db.drivers) + [Driver(newId, info, defaults)]
    ensures r.Error? ==> r == Error(500, DuplicateKey) && db.drivers == old(db.drivers)
  {
    var ok := db.InsertDriver(Driver(newId, info, defaults));
    if !ok {
      return Error(500, DuplicateKey);
    }
    var rows := Where(db.drivers, DriverKey, newId);
    assert Where(old(db.drivers), DriverKey, newId) == [];
    WhereAppend(old(db.drivers), [Driver(newId, info, defaults)], DriverKey, newId);
    r := Success(201, rows[0]);
  }

  /** `ORDER BY last_name, first_name`. */
  predicate NameLe(a: Driver, b: Driver)
  {
    PairLe(a.info.lastName, a.info.firstName, b.info.lastName, b.info.firstName)
  }

  lemma NameOrderIsTotal()
    ensures TotalPreorder(NameLe)
  {
    forall a: Driver, b: Driver, c: Driver
      ensures NameLe(a, b) || NameLe(b, a)
      ensures NameLe(a, b) && NameLe(b, c) ==> NameLe(a, c)
    {
      PairLeFacts(a.info.lastName, a.info.firstName, b.info.lastName, b.info.firstName,
                  c.info.lastName, c.info.firstName);
    }
  }

  /** getAllDrivers: every driver, by last then first name, with the count. */
  function GetAllDrivers(ds: seq<Driver>): (r: Response<Listing<Driver>>)
    ensures r.Success? && r.code == 200
    ensures r.data.results == |r.data.items| == |ds|
    ensures multiset(r.data.items) == multiset(ds)
    ensures SortedBy(r.data.items, NameLe)
  {
    NameOrderIsTotal();
    SortBySorted(ds, NameLe);
    var rows := SortBy(ds, NameLe);
    Success(200, Listing(|rows|, rows))
  }

  /** getDriver: the row with that id, or 404. */
  function GetDriver(ds: seq<Driver>, id: string): (r: Response<Driver>)
    ensures r.Error? <==> forall d :: d in ds ==> d.driverId != id
    ensures r.Error? ==> r == Error(404, NoDriver)
    ensures r.Success? ==> r.code == 200 && r.data in ds && r.data.driverId == id
  {
    var rows := Where(ds, DriverKey, id);
    if rows == [] then Error(404, NoDriver)
    else
      assert rows[0] in rows;
      Success(200, rows[0])
  }

  /** updateDriver: the five fields of the matching row are overwritten;
      id, login columns and every other row stay. 404 when nothing matches. */
  method UpdateDriver(db: Database, id: string, info: DriverInfo) returns (r: Response<Driver>)
    modifies db`drivers
    ensures old(db.Valid()) ==> db.Valid()
    ensures db.drivers == UpdateDrivers(old(db.drivers), id, info)
    ensures r.Error? <==> forall d :: d in old(db.drivers) ==> d.driverId != id
    ensures r.Error? ==> r == Error(404, NoDriver) && db.drivers == old(db.drivers)
    ensures r.Success? ==> r.code == 200 && r.data in db.drivers && r.data.driverId == id && r.data.info == info
  {
    var affected := db.UpdateDriver(id, info);
    if affected == 0 {
      UpdateWithoutMatch(old(db.drivers), id, info);
      return Error(404, NoDriver);
    }
    var rows := Where(db.drivers, DriverKey, id);
    ghost var k :| 0 <= k < |old(db.drivers)| && old(db.drivers)[k].driverId == id by {
      var x := Where(old(db.drivers), DriverKey, id)[0];
      assert x in Where(old(db.drivers), DriverKey, id);
    }
    assert db.drivers[k] in rows;
    r := Success(200, rows[0]);
    assert rows[0] in db.drivers;
  }

  /** An update whose id matches no row leaves the table as it was. */
  lemma UpdateWithoutMatch(ds: seq<Driver>, id: string, info: DriverInfo)
    requires |Where(ds, DriverKey, id)| == 0
    ensures UpdateDrivers(ds, id, info) == ds
  {
    forall i | 0 <= i < |ds| ensures UpdateDrivers(ds, id, info)[i] == ds[i] {
      assert ds[i] !in Where(ds, DriverKey, id);
    }
  }

  /** deleteDriver: 404 when absent; otherwise the row goes and the answer is
      204 with no data. The 500 branch cannot be taken without a concurrent
      delete between the check and the DELETE. */
  method DeleteDriver(db: Database, id: string) returns (r: Response<()>)
    modifies db`drivers
    ensures old(db.Valid()) ==> db.Valid()
    ensures r.Error? <==> forall d :: d in old(db.drivers) ==> d.driverId != id
    ensures r.Error? ==> r == Error(404, NoDriver) && db.drivers == old(db.drivers)
    ensures r.Success? ==> r == Success(204, ()) && db.drivers == Except(old(db.drivers), DriverKey, id)
  {
    var found := Where(db.drivers, DriverKey, id);
    if found == [] {
      return Error(404, NoDriver);
    }
    assert found[0] in found;
    var affected := db.DeleteDriver(id);
    if affected == 0 {
      return Error(500, DriverNotDeleted);
    }
    r := Success(204, ());
  }

  /** After a delete the driver is not found, and every other driver is. */
  lemma DeletedDriverIsGone(ds: seq<Driver>, id: string, other: string)
    requires other != id
    ensures GetDriver(Except(ds, DriverKey, id), id) == Error(404, NoDriver)
    ensures GetDriver(Except(ds, DriverKey, id), other).Success? <==> GetDriver(ds, other).Success?
  {
  }
}
