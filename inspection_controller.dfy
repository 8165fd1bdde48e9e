/** The inspection handlers: the detailed inspection written in one
    transaction (the inspections row plus one row per submitted checklist
    section), the daily inspection, and the two reads that join inspections
    with their driver and vehicle. The fresh inspection id (nanoid) and the
    current time are parameters; a failing INSERT inside the transaction is
    chosen by a fault parameter. */
module InspectionController {
  import opened Common
  import opened Query
  import opened Schema
  import opened Store

  const IdsRequired := "Driver ID and Vehicle ID are required"
  const NotFound := "Driver or vehicle not found"
  const AlreadyLogged := "Daily inspection already logged for this vehicle"
  const Recorded := "Full inspection recorded successfully"
  const FailedPrefix := "Inspection creation failed: "
  const InspectionNotFound := "Inspection not found"
  const DailyLogged := "Daily inspection logged successfully"
  /** What reading `.length` of a null body_damages throws. */
  const NullDamages := "Cannot read properties of null (reading 'length')"
  /** What evaluating the undeclared `mileage` throws. */
  const MileageUndefined := "mileage is not defined"

  const SecondsPerDay := 86400

  /** `DATE(ts)`: the day number of a timestamp in seconds (UTC). */
  function Day(ts: int): (d: int)
    ensures d * SecondsPerDay <= ts < d * SecondsPerDay + SecondsPerDay
  {
    ts / SecondsPerDay
  }

  /** Two timestamps share a day exactly when the later one falls in the
      86400-second window that starts at midnight of the earlier one. */
  lemma SameDay(ts: int, now: int)
    ensures Day(ts) == Day(now) <==>
              Day(now) * SecondsPerDay <= ts < Day(now) * SecondsPerDay + SecondsPerDay
  {
    var d, e := Day(ts), Day(now);
    if d < e {
      assert d * SecondsPerDay + SecondsPerDay <= e * SecondsPerDay;
    } else if d > e {
      assert e * SecondsPerDay + SecondsPerDay <= d * SecondsPerDay;
    }
  }

  // ---------------------------------------------------------------------
  // The checks both creation handlers make before writing

  /** An inspection of this driver and vehicle is already dated today. */
  function LoggedToday(ins: seq<Inspection>, driverId: string, vehicleId: string, now: int): (logged: bool)
    ensures logged <==>
              exists i :: i in ins && i.driverId == driverId && i.vehicleId == vehicleId
                          && Day(now) * SecondsPerDay <= i.inspectedAt < Day(now) * SecondsPerDay + SecondsPerDay
  {
    forall i | i in ins { SameDay(i.inspectedAt, now); }
    exists i :: i in ins && i.driverId == driverId && i.vehicleId == vehicleId && Day(i.inspectedAt) == Day(now)
  }

  datatype Admission = Admitted | Refused(code: int, message: string)

  /** The existence lookups, then the same-day duplicate check. */
  function Admit(t: Tables, driverId: string, vehicleId: string, now: int): (a: Admission)
    ensures a == Refused(404, NotFound) <==>
              (forall d :: d in t.drivers ==> d.driverId != driverId)
              || (forall v :: v in t.vehicles ==> v.vehicleId != vehicleId)
    ensures a == Refused(400, AlreadyLogged) <==>
              && (exists d :: d in t.drivers && d.driverId == driverId)
              && (exists v :: v in t.vehicles && v.vehicleId == vehicleId)
              && LoggedToday(t.inspections, driverId, vehicleId, now)
    ensures a.Refused? ==> a == Refused(404, NotFound) || a == Refused(400, AlreadyLogged)
  {
    var ds := Where(t.drivers, DriverKey, driverId);
    var vs := Where(t.vehicles, VehicleKey, vehicleId);
    if ds == [] || vs == [] then Refused(404, NotFound)
    else
      assert ds[0] in ds && vs[0] in vs;
      if LoggedToday(t.inspections, driverId, vehicleId, now) then Refused(400, AlreadyLogged)
      else Admitted
  }

  /** No driver and vehicle pair has two inspections on one day. */
  ghost predicate OnePerDay(ins: seq<Inspection>)
  {
    forall p, q :: 0 <= p < q < |ins| && ins[p].driverId == ins[q].driverId && ins[p].vehicleId == ins[q].vehicleId
      ==> Day(ins[p].inspectedAt) != Day(ins[q].inspectedAt)
  }

  /** Adding an inspection that passed admission keeps one per pair per day. */
  lemma AdmittedKeepsOnePerDay(t: Tables, row: Inspection)
    requires OnePerDay(t.inspections)
    requires Admit(t, row.driverId, row.vehicleId, row.inspectedAt) == Admitted
    ensures OnePerDay(t.inspections + [row])
  {
    var ins := t.inspections + [row];
    forall p, q | 0 <= p < q < |ins| && ins[p].driverId == ins[q].driverId && ins[p].vehicleId == ins[q].vehicleId
      ensures Day(ins[p].inspectedAt) != Day(ins[q].inspectedAt)
    {
      if q == |t.inspections| {
        assert ins[p] in t.inspections;
      } else {
        assert ins[p] == t.inspections[p] && ins[q] == t.inspections[q];
      }
    }
  }

  // ---------------------------------------------------------------------
  // createDetailedInspection

  /** `body_damages`, which defaults to [] only when the key is absent. */
  datatype Damages = Omitted | NullList | Entries(list: seq<DamageFields>)

  /** The request body; an absent or null section is None. */
  datatype DetailedRequest = DetailedRequest(
    driverId: Option<string>,
    vehicleId: Option<string>,
    engineChecks: Option<EngineFields>,
    acStatus: Option<AcFields>,
    bodyDamages: Damages,
    tireChecks: Option<TireFields>,
    groundChecks: Option<GroundFields>,
    lightChecks: Option<LightFields>,
    seatbeltChecks: Option<SeatbeltFields>,
    toolsChecks: Option<ToolsFields>)

  /** A statement of the transaction that fails, and its error message:
      statement 0 is the inspections INSERT, statement k > 0 the k-th child
      INSERT of the plan. */
  datatype Fault = Fault(at: nat, cause: string)

  /** The `data` of a 201 answer. */
  datatype Created = Created(inspectionId: string, message: string)

  /** The damage entries that are inserted. */
  function Submitted(d: Damages): seq<DamageFields>
  {
    if d.Entries? then d.list else []
  }

  /** The row of a one-row section, if the section was sent. */
  function One<F(!new)>(id: string, section: Option<F>): (rows: seq<Keyed<F>>)
    ensures |rows| <= 1
    ensures forall r :: r in rows <==> section.Some? && r == Keyed(id, section.value)
  {
    if section.Some? then [Keyed(id, section.value)] else []
  }

  /** One body_damages row per entry, in order. */
  function DamageRows(id: string, list: seq<DamageFields>): (rows: seq<Keyed<DamageFields>>)
    ensures |rows| == |list|
    ensures forall k :: 0 <= k < |list| ==> rows[k] == Keyed(id, list[k])
  {
    seq(|list|, k requires 0 <= k < |list| => Keyed(id, list[k]))
  }

  function DamagePlan(id: string, list: seq<DamageFields>): (plan: seq<ChildRow>)
    ensures |plan| == |list|
    ensures forall k :: 0 <= k < |list| ==> plan[k] == DamageRow(Keyed(id, list[k]))
  {
    seq(|list|, k requires 0 <= k < |list| => DamageRow(Keyed(id, list[k])))
  }

  function OptRow<F>(id: string, section: Option<F>, wrap: Keyed<F> -> ChildRow): seq<ChildRow>
  {
    if section.Some? then [wrap(Keyed(id, section.value))] else []
  }

  function WrapEngine(r: Keyed<EngineFields>): ChildRow { EngineRow(r) }
  function WrapAc(r: Keyed<AcFields>): ChildRow { AcRow(r) }
  function WrapTire(r: Keyed<TireFields>): ChildRow { TireRow(r) }
  function WrapGround(r: Keyed<GroundFields>): ChildRow { GroundRow(r) }
  function WrapLight(r: Keyed<LightFields>): ChildRow { LightRow(r) }
  function WrapSeatbelt(r: Keyed<SeatbeltFields>): ChildRow { SeatbeltRow(r) }
  function WrapTools(r: Keyed<ToolsFields>): ChildRow { ToolsRow(r) }

  /** The child INSERTs of a detailed inspection, in the order of the
      Promise.all array: engine, ac, each damage, tires, ground, lights,
      seatbelts, tools. */
  function Plan(id: string, req: DetailedRequest): (plan: seq<ChildRow>)
    ensures AllFor(plan, id)
    ensures |Submitted(req.bodyDamages)| <= |plan| <= |Submitted(req.bodyDamages)| + 7
  {
    var e := OptRow(id, req.engineChecks, WrapEngine);
    var a := OptRow(id, req.acStatus, WrapAc);
    var d := DamagePlan(id, Submitted(req.bodyDamages));
    var ti := OptRow(id, req.tireChecks, WrapTire);
    var g := OptRow(id, req.groundChecks, WrapGround);
    var l := OptRow(id, req.lightChecks, WrapLight);
    var s := OptRow(id, req.seatbeltChecks, WrapSeatbelt);
    var to := OptRow(id, req.toolsChecks, WrapTools);
    OptRowFor(id, req.engineChecks, WrapEngine);
    OptRowFor(id, req.acStatus, WrapAc);
    OptRowFor(id, req.tireChecks, WrapTire);
    OptRowFor(id, req.groundChecks, WrapGround);
    OptRowFor(id, req.lightChecks, WrapLight);
    OptRowFor(id, req.seatbeltChecks, WrapSeatbelt);
    OptRowFor(id, req.toolsChecks, WrapTools);
    PlanConcat(id, e, a, d, ti, g, l, s, to);
    e + (a + (d + (ti + (g + (l + (s + to))))))
  }

  /** A one-row section gives at most one row, and it is for the id. */
  lemma OptRowFor<F>(id: string, section: Option<F>, wrap: Keyed<F> -> ChildRow)
    requires section.Some? ==> wrap(Keyed(id, section.value)).InspectionId() == id
    ensures AllFor(OptRow(id, section, wrap), id)
    ensures |OptRow(id, section, wrap)| <= 1
  {
  }

  /** Concatenating the sections' rows keeps every row for the id, and adds
      at most one row per one-row section to the damage rows. */
  lemma PlanConcat(id: string, e: seq<ChildRow>, a: seq<ChildRow>, d: seq<ChildRow>, ti: seq<ChildRow>,
                   g: seq<ChildRow>, l: seq<ChildRow>, s: seq<ChildRow>, to: seq<ChildRow>)
    requires AllFor(e, id) && AllFor(a, id) && AllFor(d, id) && AllFor(ti, id)
    requires AllFor(g, id) && AllFor(l, id) && AllFor(s, id) && AllFor(to, id)
    requires |e| <= 1 && |a| <= 1 && |ti| <= 1 && |g| <= 1 && |l| <= 1 && |s| <= 1 && |to| <= 1
    ensures AllFor(e + (a + (d + (ti + (g + (l + (s + to)))))), id)
    ensures |d| <= |e + (a + (d + (ti + (g + (l + (s + to))))))| <= |d| + 7
  {
    AllForAppend(s, to, id);
    AllForAppend(l, s + to, id);
    AllForAppend(g, l + (s + to), id);
    AllForAppend(ti, g + (l + (s + to)), id);
    AllForAppend(d, ti + (g + (l + (s + to))), id);
    AllForAppend(a, d + (ti + (g + (l + (s + to)))), id);
    AllForAppend(e, a + (d + (ti + (g + (l + (s + to))))), id);
  }

  /** Every row of a plan belongs to inspection id. */
  predicate AllFor(plan: seq<ChildRow>, id: string)
  {
    forall k :: 0 <= k < |plan| ==> plan[k].InspectionId() == id
  }

  lemma AllForAppend(a: seq<ChildRow>, b: seq<ChildRow>, id: string)
    requires AllFor(a, id) && AllFor(b, id)
    ensures AllFor(a + b, id)
  {
    forall k | 0 <= k < |a + b| ensures (a + b)[k].InspectionId() == id {
      if k >= |a| { assert (a + b)[k] == b[k - |a|]; }
    }
  }

  /** The store after the transaction commits: the parent row, then the plan. */
  function Committed(t: Tables, row: Inspection, req: DetailedRequest): (c: Tables)
    ensures c.drivers == t.drivers && c.vehicles == t.vehicles && c.admins == t.admins
    ensures c.inspections == t.inspections + [row]
  {
    AddChildrenKeepsParents(t.(inspections := t.inspections + [row]), Plan(row.inspectionId, req));
    AddChildren(t.(inspections := t.inspections + [row]), Plan(row.inspectionId, req))
  }

  /** The message of the failure that aborts the transaction, if any. The
      parent INSERT runs first (a fault there, or a taken id); a null
      body_damages then throws while the child INSERTs are being issued;
      otherwise a fault on a child INSERT aborts. */
  function TransactionFailure(t: Tables, req: DetailedRequest, newId: string, fault: Option<Fault>): (f: Option<string>)
    ensures f.None? <==>
              && (fault.None? || fault.value.at > |Plan(newId, req)|)
              && (forall i :: i in t.inspections ==> i.inspectionId != newId)
              && !req.bodyDamages.NullList?
    ensures fault.Some? && fault.value.at == 0 ==> f == Some(fault.value.cause)
    ensures (fault.None? || fault.value.at > 0) && (exists i :: i in t.inspections && i.inspectionId == newId)
            ==> f == Some(DuplicateKey)
    ensures ((fault.None? || fault.value.at > 0) && (forall i :: i in t.inspections ==> i.inspectionId != newId)
             && req.bodyDamages.NullList?)
            ==> f == Some(NullDamages)
    ensures (fault.Some? && 0 < fault.value.at <= |Plan(newId, req)| && !req.bodyDamages.NullList?
             && (forall i :: i in t.inspections ==> i.inspectionId != newId))
            ==> f == Some(fault.value.cause)
  {
    if fault.Some? && fault.value.at == 0 then Some(fault.value.cause)
    else if Where(t.inspections, InspectionKey, newId) != [] then
      assert Where(t.inspections, InspectionKey, newId)[0] in Where(t.inspections, InspectionKey, newId);
      Some(DuplicateKey)
    else if req.bodyDamages.NullList? then Some(NullDamages)
    else if fault.Some? && fault.value.at <= |Plan(newId, req)| then Some(fault.value.cause)
    else None
  }

  /** What createDetailedInspection answers: the three checks in order,
      then 500 for an aborted transaction or 201 with the new id. */
  function DetailedResponse(t: Tables, req: DetailedRequest, newId: string, now: int, fault: Option<Fault>): (r: Response<Created>)
    ensures r.Success? <==>
              && Truthy(req.driverId) && Truthy(req.vehicleId)
              && Admit(t, req.driverId.value, req.vehicleId.value, now) == Admitted
              && TransactionFailure(t, req, newId, fault).None?
    ensures r.Success? ==> r == Success(201, Created(newId, Recorded))
    ensures r.Error? ==> r.code in {400, 404, 500}
    ensures r.Error? && r.code == 500 ==>
              && TransactionFailure(t, req, newId, fault).Some?
              && r.message == FailedPrefix + TransactionFailure(t, req, newId, fault).value
  {
    if !Truthy(req.driverId) || !Truthy(req.vehicleId) then Error(400, IdsRequired)
    else match Admit(t, req.driverId.value, req.vehicleId.value, now)
      case Refused(code, message) => Error(code, message)
      case Admitted =>
        match TransactionFailure(t, req, newId, fault)
        case Some(cause) => Error(500, FailedPrefix + cause)
        case None => Success(201, Created(newId, Recorded))
  }

  /** Missing ids are refused with 400 before any table is read: the answer
      is the same whatever the store holds. */
  lemma MissingIdsChecked(t: Tables, t': Tables, req: DetailedRequest, newId: string, now: int, fault: Option<Fault>)
    requires !Truthy(req.driverId) || !Truthy(req.vehicleId)
    ensures DetailedResponse(t, req, newId, now, fault) == Error(400, IdsRequired)
    ensures DetailedResponse(t', req, newId, now, fault) == DetailedResponse(t, req, newId, now, fault)
  {
  }

  /** An unknown driver or vehicle is 404, whatever was logged today and
      whatever would fail later. */
  lemma UnknownRowsRejected(t: Tables, req: DetailedRequest, newId: string, now: int, fault: Option<Fault>)
    requires Truthy(req.driverId) && Truthy(req.vehicleId)
    requires (forall d :: d in t.drivers ==> d.driverId != req.driverId.value)
             || (forall v :: v in t.vehicles ==> v.vehicleId != req.vehicleId.value)
    ensures DetailedResponse(t, req, newId, now, fault) == Error(404, NotFound)
  {
  }

  /** A second inspection of the pair on the same day is 400. */
  lemma SameDayRejected(t: Tables, req: DetailedRequest, newId: string, now: int, fault: Option<Fault>)
    requires Truthy(req.driverId) && Truthy(req.vehicleId)
    requires exists d :: d in t.drivers && d.driverId == req.driverId.value
    requires exists v :: v in t.vehicles && v.vehicleId == req.vehicleId.value
    requires LoggedToday(t.inspections, req.driverId.value, req.vehicleId.value, now)
    ensures DetailedResponse(t, req, newId, now, fault) == Error(400, AlreadyLogged)
  {
  }

  // The effect of the plan, table by table.

  lemma {:induction false} AddDamages(t: Tables, id: string, list: seq<DamageFields>)
    ensures AddChildren(t, DamagePlan(id, list)) == t.(bodyDamages := t.bodyDamages + DamageRows(id, list))
    decreases |list|
  {
    if list == [] {
      assert t.bodyDamages + [] == t.bodyDamages;
    } else {
      var row := Keyed(id, list[0]);
      var t1 := AddChild(t, DamageRow(row));
      DamageTails(id, list);
      assert AddChildren(t, DamagePlan(id, list)) == AddChildren(t1, DamagePlan(id, list[1..]));
      AddDamages(t1, id, list[1..]);
      AppendAssoc(t.bodyDamages, [row], DamageRows(id, list[1..]));
    }
  }

  /** Both damage sequences are their first entry followed by those of the
      remaining list. */
  lemma DamageTails(id: string, list: seq<DamageFields>)
    requires list != []
    ensures DamagePlan(id, list)[0] == DamageRow(Keyed(id, list[0]))
    ensures DamagePlan(id, list)[1..] == DamagePlan(id, list[1..])
    ensures DamageRows(id, list) == [Keyed(id, list[0])] + DamageRows(id, list[1..])
  {
    var plan, rest := DamagePlan(id, list), DamagePlan(id, list[1..]);
    forall k | 0 <= k < |rest| ensures plan[1..][k] == rest[k] {
      assert list[1..][k] == list[k + 1];
    }
    var rows, tail := DamageRows(id, list), DamageRows(id, list[1..]);
    forall k | 0 <= k < |rows| ensures rows[k] == ([Keyed(id, list[0])] + tail)[k] {
      if k > 0 {
        assert list[1..][k - 1] == list[k];
      }
    }
  }

  lemma AddOne(t: Tables, c: ChildRow)
    ensures AddChildren(t, [c]) == AddChild(t, c)
  {
    assert [c][1..] == [];
  }

  // One lemma per one-row section: its planned INSERT appends One(...) to its table.

  lemma AddEngine(t: Tables, id: string, o: Option<EngineFields>)
    ensures AddChildren(t, OptRow(id, o, WrapEngine)) == t.(engineChecks := t.engineChecks + One(id, o))
  {
    if o.Some? { AddOne(t, EngineRow(Keyed(id, o.value))); } else { assert t.engineChecks + [] == t.engineChecks; }
  }

  lemma AddAc(t: Tables, id: string, o: Option<AcFields>)
    ensures AddChildren(t, OptRow(id, o, WrapAc)) == t.(acStatus := t.acStatus + One(id, o))
  {
    if o.Some? { AddOne(t, AcRow(Keyed(id, o.value))); } else { assert t.acStatus + [] == t.acStatus; }
  }

  lemma AddTire(t: Tables, id: string, o: Option<TireFields>)
    ensures AddChildren(t, OptRow(id, o, WrapTire)) == t.(tireChecks := t.tireChecks + One(id, o))
  {
    if o.Some? { AddOne(t, TireRow(Keyed(id, o.value))); } else { assert t.tireChecks + [] == t.tireChecks; }
  }

  lemma AddGround(t: Tables, id: string, o: Option<GroundFields>)
    ensures AddChildren(t, OptRow(id, o, WrapGround)) == t.(groundChecks := t.groundChecks + One(id, o))
  {
    if o.Some? { AddOne(t, GroundRow(Keyed(id, o.value))); } else { assert t.groundChecks + [] == t.groundChecks; }
  }

  lemma AddLight(t: Tables, id: string, o: Option<LightFields>)
    ensures AddChildren(t, OptRow(id, o, WrapLight)) == t.(lightChecks := t.lightChecks + One(id, o))
  {
    if o.Some? { AddOne(t, LightRow(Keyed(id, o.value))); } else { assert t.lightChecks + [] == t.lightChecks; }
  }

  lemma AddSeatbelt(t: Tables, id: string, o: Option<SeatbeltFields>)
    ensures AddChildren(t, OptRow(id, o, WrapSeatbelt)) == t.(seatbeltChecks := t.seatbeltChecks + One(id, o))
  {
    if o.Some? { AddOne(t, SeatbeltRow(Keyed(id, o.value))); } else { assert t.seatbeltChecks + [] == t.seatbeltChecks; }
  }

  lemma AddTools(t: Tables, id: string, o: Option<ToolsFields>)
    ensures AddChildren(t, OptRow(id, o, WrapTools)) == t.(toolsCheck := t.toolsCheck + One(id, o))
  {
    if o.Some? { AddOne(t, ToolsRow(Keyed(id, o.value))); } else { assert t.toolsCheck + [] == t.toolsCheck; }
  }

  /** The committed store, table by table: one new inspections row, one row
      in each table whose section was sent, one body_damages row per entry
      in order, and nothing else. */
  lemma CommittedTables(t: Tables, row: Inspection, req: DetailedRequest)
    ensures var c := Committed(t, row, req);
            var id := row.inspectionId;
            && c.drivers == t.drivers && c.vehicles == t.vehicles && c.admins == t.admins
            && c.inspections == t.inspections + [row]
            && c.engineChecks == t.engineChecks + One(id, req.engineChecks)
            && c.acStatus == t.acStatus + One(id, req.acStatus)
            && c.bodyDamages == t.bodyDamages + DamageRows(id, Submitted(req.bodyDamages))
            && c.tireChecks == t.tireChecks + One(id, req.tireChecks)
            && c.groundChecks == t.groundChecks + One(id, req.groundChecks)
            && c.lightChecks == t.lightChecks + One(id, req.lightChecks)
            && c.seatbeltChecks == t.seatbeltChecks + One(id, req.seatbeltChecks)
            && c.toolsCheck == t.toolsCheck + One(id, req.toolsChecks)
  {
    var id := row.inspectionId;
    var t0 := t.(inspections := t.inspections + [row]);
    var e := OptRow(id, req.engineChecks, WrapEngine);
    var a := OptRow(id, req.acStatus, WrapAc);
    var dm := DamagePlan(id, Submitted(req.bodyDamages));
    var ti := OptRow(id, req.tireChecks, WrapTire);
    var g := OptRow(id, req.groundChecks, WrapGround);
    var l := OptRow(id, req.lightChecks, WrapLight);
    var s := OptRow(id, req.seatbeltChecks, WrapSeatbelt);
    var to := OptRow(id, req.toolsChecks, WrapTools);
    var t1 := AddChildren(t0, e);
    var t2 := AddChildren(t1, a);
    var t3 := AddChildren(t2, dm);
    var t4 := AddChildren(t3, ti);
    var t5 := AddChildren(t4, g);
    var t6 := AddChildren(t5, l);
    var t7 := AddChildren(t6, s);
    AddEngine(t0, id, req.engineChecks);
    AddAc(t1, id, req.acStatus);
    AddDamages(t2, id, Submitted(req.bodyDamages));
    AddTire(t3, id, req.tireChecks);
    AddGround(t4, id, req.groundChecks);
    AddLight(t5, id, req.lightChecks);
    AddSeatbelt(t6, id, req.seatbeltChecks);
    AddTools(t7, id, req.toolsChecks);
    AddChildrenAppend(t6, s, to);
    AddChildrenAppend(t5, l, s + to);
    AddChildrenAppend(t4, g, l + (s + to));
    AddChildrenAppend(t3, ti, g + (l + (s + to)));
    AddChildrenAppend(t2, dm, ti + (g + (l + (s + to))));
    AddChildrenAppend(t1, a, dm + (ti + (g + (l + (s + to)))));
    AddChildrenAppend(t0, e, a + (dm + (ti + (g + (l + (s + to))))));
  }

  /** The child INSERTs of the plan, one after another, stopping at the
      faulty one. Statement k + 1 of the transaction is plan[k]. */
  method InsertPlan(db: Database, plan: seq<ChildRow>, fault: Option<Fault>) returns (failure: Option<string>)
    modifies db`engineChecks, db`acStatus, db`bodyDamages, db`tireChecks
    modifies db`groundChecks, db`lightChecks, db`seatbeltChecks, db`toolsCheck
    ensures failure.None? <==> fault.None? || fault.value.at == 0 || fault.value.at > |plan|
    ensures failure.Some? ==> failure.value == fault.value.cause
    ensures failure.None? ==> db.Snapshot() == AddChildren(old(db.Snapshot()), plan)
  {
    ghost var t0 := db.Snapshot();
    var k := 0;
    while k < |plan|
      invariant 0 <= k <= |plan|
      invariant db.Snapshot() == AddChildren(t0, plan[..k])
      invariant fault.None? || fault.value.at == 0 || fault.value.at > k
    {
      if fault.Some? && fault.value.at == k + 1 {
        return Some(fault.value.cause);
      }
      db.InsertChild(plan[k]);
      AddChildrenAppend(t0, plan[..k], [plan[k]]);
      AddOne(AddChildren(t0, plan[..k]), plan[k]);
      assert plan[..k + 1] == plan[..k] + [plan[k]];
      k := k + 1;
    }
    assert plan[..k] == plan;
    failure := None;
  }

  /** The statements inside the transaction: the inspections row, then,
      unless body_damages is null (its `.length` throws), the planned child
      rows. It stops at the first failure; what it wrote by then is left for
      the ROLLBACK. */
  method RunStatements(db: Database, row: Inspection, req: DetailedRequest, fault: Option<Fault>)
    returns (failure: Option<string>)
    modifies db`inspections, db`engineChecks, db`acStatus, db`bodyDamages, db`tireChecks
    modifies db`groundChecks, db`lightChecks, db`seatbeltChecks, db`toolsCheck
    ensures failure == TransactionFailure(old(db.Snapshot()), req, row.inspectionId, fault)
    ensures failure.None? ==> db.Snapshot() == Committed(old(db.Snapshot()), row, req)
  {
    ghost var t := db.Snapshot();
    if fault.Some? && fault.value.at == 0 {
      return Some(fault.value.cause);
    }
    var ok := db.InsertInspection(row);
    if !ok {
      return Some(DuplicateKey);
    }
    if req.bodyDamages.NullList? {
      return Some(NullDamages);
    }
    assert db.Snapshot() == t.(inspections := t.inspections + [row]);
    failure := InsertPlan(db, Plan(row.inspectionId, req), fault);
  }

  /** Steps 3 to 6 of createDetailedInspection: take a connection, BEGIN,
      run the statements, then COMMIT, or ROLLBACK at the first failure;
      the connection is released either way. The model holds one
      connection's transaction state, so no other transaction may be open. */
  method RunTransaction(db: Database, row: Inspection, req: DetailedRequest, fault: Option<Fault>)
    returns (failure: Option<string>)
    requires db.savepoint.None?
    modifies db
    ensures failure == TransactionFailure(old(db.Snapshot()), req, row.inspectionId, fault)
    ensures failure.None? ==> db.Snapshot() == Committed(old(db.Snapshot()), row, req)
    ensures failure.Some? ==> db.Snapshot() == old(db.Snapshot())
    ensures db.connectionsInUse == old(db.connectionsInUse)
    ensures db.savepoint.None?
  {
    ghost var t := db.Snapshot();
    db.Acquire();
    db.Begin();
    assert db.savepoint == Some(t);
    failure := RunStatements(db, row, req, fault);
    assert db.savepoint == Some(t);
    if failure.Some? {
      db.Rollback();
      assert db.Snapshot() == t;
    } else {
      db.Commit();
      assert db.Snapshot() == Committed(t, row, req);
    }
    db.Release();
  }

  /** createDetailedInspection: the three checks, then the transaction. */
  method CreateDetailedInspection(db: Database, req: DetailedRequest, newId: string, now: int, fault: Option<Fault>)
    returns (r: Response<Created>)
    requires db.savepoint.None?
    modifies db
    ensures r == DetailedResponse(old(db.Snapshot()), req, newId, now, fault)
    ensures r.Success? ==>
              db.Snapshot() == Committed(old(db.Snapshot()), Inspection(newId, req.driverId.value, req.vehicleId.value, now), req)
    ensures r.Error? ==> db.Snapshot() == old(db.Snapshot())
    ensures db.connectionsInUse == old(db.connectionsInUse)
    ensures db.savepoint.None?
    ensures old(db.Valid()) ==> db.Valid()
  {
    ghost var t := db.Snapshot();
    if !Truthy(req.driverId) || !Truthy(req.vehicleId) {
      return Error(400, IdsRequired);
    }
    var admission := Admit(db.Snapshot(), req.driverId.value, req.vehicleId.value, now);
    if admission.Refused? {
      return Error(admission.code, admission.message);
    }
    var failure := RunTransaction(db, Inspection(newId, req.driverId.value, req.vehicleId.value, now), req, fault);
    if failure.Some? {
      r := Error(500, FailedPrefix + failure.value);
    } else {
      r := Success(201, Created(newId, Recorded));
      if Consistent(t) {
        CommittedKeepsConsistent(t, req, newId, now, fault);
      }
    }
  }

  /** A committed detailed inspection keeps the store consistent: the new id
      was free, and every new checklist row names it. */
  lemma CommittedKeepsConsistent(t: Tables, req: DetailedRequest, newId: string, now: int, fault: Option<Fault>)
    requires Consistent(t)
    requires DetailedResponse(t, req, newId, now, fault).Success?
    ensures Consistent(Committed(t, Inspection(newId, req.driverId.value, req.vehicleId.value, now), req))
  {
    var row := Inspection(newId, req.driverId.value, req.vehicleId.value, now);
    var c := Committed(t, row, req);
    CommittedTables(t, row, req);
    assert UniqueKeys(c.inspections, InspectionKey) by {
      forall p, q | 0 <= p < q < |c.inspections|
        ensures c.inspections[p].inspectionId != c.inspections[q].inspectionId
      {
        if q == |t.inspections| {
          assert c.inspections[p] in t.inspections;
        }
      }
    }
    assert InspectionIds(c.inspections) == InspectionIds(t.inspections) + {newId};
    ParentedAppend(t.engineChecks, One(newId, req.engineChecks), t.inspections, row);
    ParentedAppend(t.acStatus, One(newId, req.acStatus), t.inspections, row);
    ParentedAppend(t.bodyDamages, DamageRows(newId, Submitted(req.bodyDamages)), t.inspections, row);
    ParentedAppend(t.tireChecks, One(newId, req.tireChecks), t.inspections, row);
    ParentedAppend(t.groundChecks, One(newId, req.groundChecks), t.inspections, row);
    ParentedAppend(t.lightChecks, One(newId, req.lightChecks), t.inspections, row);
    ParentedAppend(t.seatbeltChecks, One(newId, req.seatbeltChecks), t.inspections, row);
    ParentedAppend(t.toolsCheck, One(newId, req.toolsChecks), t.inspections, row);
  }

  /** A created detailed inspection names a driver and a vehicle that exist
      in the store it is committed to. */
  lemma CreatedHasParents(t: Tables, req: DetailedRequest, newId: string, now: int, fault: Option<Fault>)
    requires DetailedResponse(t, req, newId, now, fault).Success?
    ensures exists d :: d in t.drivers && d.driverId == req.driverId.value
    ensures exists v :: v in t.vehicles && v.vehicleId == req.vehicleId.value
  {
  }

  lemma ParentedAppend<F>(rows: seq<Keyed<F>>, extra: seq<Keyed<F>>, ins: seq<Inspection>, row: Inspection)
    requires Parented(rows, ins)
    requires forall r :: r in extra ==> r.inspectionId == row.inspectionId
    ensures Parented(rows + extra, ins + [row])
  {
    assert InspectionIds(ins + [row]) == InspectionIds(ins) + {row.inspectionId};
  }

  /** Executed one after another, detailed inspections never give a driver
      and vehicle pair two inspections on one day; a retry the same day is
      refused with 400. */
  lemma DetailedKeepsOnePerDay(t: Tables, req: DetailedRequest, newId: string, now: int, fault: Option<Fault>,
                               req': DetailedRequest, newId': string, later: int, fault': Option<Fault>)
    requires OnePerDay(t.inspections)
    requires DetailedResponse(t, req, newId, now, fault).Success?
    requires req'.driverId == req.driverId && req'.vehicleId == req.vehicleId
    requires Day(later) == Day(now)
    ensures var c := Committed(t, Inspection(newId, req.driverId.value, req.vehicleId.value, now), req);
            && OnePerDay(c.inspections)
            && DetailedResponse(c, req', newId', later, fault') == Error(400, AlreadyLogged)
  {
    var row := Inspection(newId, req.driverId.value, req.vehicleId.value, now);
    var c := Committed(t, row, req);
    CommittedTables(t, row, req);
    AdmittedKeepsOnePerDay(t, row);
    assert row in c.inspections;
    assert LoggedToday(c.inspections, row.driverId, row.vehicleId, later);
    var d :| d in t.drivers && d.driverId == row.driverId;
    var v :| v in t.vehicles && v.vehicleId == row.vehicleId;
    assert d in c.drivers && v in c.vehicles;
  }

  // ---------------------------------------------------------------------
  // createDailyInspection

  /** createDailyInspection as written: after the checks the INSERT's
      argument list names `mileage`, which is declared nowhere, so the
      handler throws before any row is written (and the statement has four
      placeholders for three columns besides). It never answers 201. */
  function DailyAsWritten(t: Tables, driverId: string, vehicleId: string, now: int): (r: Response<Created>)
    ensures r.Error?
    ensures r.code == 500 <==> Admit(t, driverId, vehicleId, now) == Admitted
    ensures r.code == 500 ==> r.message == MileageUndefined
  {
    match Admit(t, driverId, vehicleId, now)
    case Refused(code, message) => Error(code, message)
    case Admitted => Error(500, MileageUndefined)
  }

  /** What the daily handler evidently means to answer: the same checks, then
      the inspections row with the fresh id and 201. */
  function DailyResponse(t: Tables, driverId: string, vehicleId: string, newId: string, now: int): (r: Response<Created>)
    ensures r.Success? <==>
              Admit(t, driverId, vehicleId, now) == Admitted
              && forall i :: i in t.inspections ==> i.inspectionId != newId
    ensures r.Success? ==> r == Success(201, Created(newId, DailyLogged))
    ensures r.Error? ==> r.code in {400, 404, 500}
  {
    match Admit(t, driverId, vehicleId, now)
    case Refused(code, message) => Error(code, message)
    case Admitted =>
      var taken := Where(t.inspections, InspectionKey, newId);
      if taken != [] then
        assert taken[0] in taken;
        Error(500, DuplicateKey)
      else Success(201, Created(newId, DailyLogged))
  }

  /** createDailyInspection, corrected: one inspections row on success, no
      change otherwise. */
  method CreateDailyInspection(db: Database, driverId: string, vehicleId: string, newId: string, now: int)
    returns (r: Response<Created>)
    modifies db`inspections
    ensures old(db.Valid()) ==> db.Valid()
    ensures r == DailyResponse(old(db.Snapshot()), driverId, vehicleId, newId, now)
    ensures r.Success? ==> db.inspections == old(db.inspections) + [Inspection(newId, driverId, vehicleId, now)]
    ensures r.Error? ==> db.inspections == old(db.inspections)
  {
    var admission := Admit(db.Snapshot(), driverId, vehicleId, now);
    if admission.Refused? {
      return Error(admission.code, admission.message);
    }
    var ok := db.InsertInspection(Inspection(newId, driverId, vehicleId, now));
    if !ok {
      return Error(500, DuplicateKey);
    }
    r := Success(201, Created(newId, DailyLogged));
  }

  /** A store holding the driver and the vehicle and no inspection: the
      handler as written answers 500 where a 201 was meant. */
  lemma DailyAsWrittenFails()
    ensures var t := Tables(
              [Driver("d1", DriverInfo("Ada", "Obi", "L-1", "080", "ada@fleet.ng"), Account(true, "h", None, None))],
              [Vehicle("v1", VehicleData("KJA-123", "Toyota", "Hiace", 2020, "VIN1"))],
              [], [], [], [], [], [], [], [], [], []);
            && DailyAsWritten(t, "d1", "v1", 0) == Error(500, MileageUndefined)
            && DailyResponse(t, "d1", "v1", "i1", 0) == Success(201, Created("i1", DailyLogged))
  {
    var t := Tables(
              [Driver("d1", DriverInfo("Ada", "Obi", "L-1", "080", "ada@fleet.ng"), Account(true, "h", None, None))],
              [Vehicle("v1", VehicleData("KJA-123", "Toyota", "Hiace", 2020, "VIN1"))],
              [], [], [], [], [], [], [], [], [], []);
    assert t.drivers[0] in t.drivers && t.vehicles[0] in t.vehicles;
  }

  /** The corrected daily handler keeps one inspection per pair per day. */
  lemma DailyKeepsOnePerDay(t: Tables, driverId: string, vehicleId: string, newId: string, now: int)
    requires OnePerDay(t.inspections)
    requires DailyResponse(t, driverId, vehicleId, newId, now).Success?
    ensures OnePerDay(t.inspections + [Inspection(newId, driverId, vehicleId, now)])
  {
    AdmittedKeepsOnePerDay(t, Inspection(newId, driverId, vehicleId, now));
  }

  // ---------------------------------------------------------------------
  // The joined reads

  /** One row of `inspections JOIN drivers JOIN vehicles`. */
  datatype Joined = Joined(i: Inspection, d: Driver, v: Vehicle)

  function WithVehicles(i: Inspection, d: Driver, vs: seq<Vehicle>): (r: seq<Joined>)
    ensures forall x :: x in r <==> x.i == i && x.d == d && x.v in vs && x.v.vehicleId == i.vehicleId
    decreases |vs|
  {
    if vs == [] then []
    else
      assert forall v :: v in vs <==> v == vs[0] || v in vs[1..];
      (if vs[0].vehicleId == i.vehicleId then [Joined(i, d, vs[0])] else []) + WithVehicles(i, d, vs[1..])
  }

  function WithDrivers(i: Inspection, ds: seq<Driver>, vs: seq<Vehicle>): (r: seq<Joined>)
    ensures forall x :: x in r <==>
              x.i == i && x.d in ds && x.d.driverId == i.driverId && x.v in vs && x.v.vehicleId == i.vehicleId
    decreases |ds|
  {
    if ds == [] then []
    else
      assert forall d :: d in ds <==> d == ds[0] || d in ds[1..];
      (if ds[0].driverId == i.driverId then WithVehicles(i, ds[0], vs) else []) + WithDrivers(i, ds[1..], vs)
  }

  /** `inspections i JOIN drivers d ON i.driver_id = d.driver_id
      JOIN vehicles v ON i.vehicle_id = v.vehicle_id`: an inspection whose
      driver or vehicle row is gone has no joined row. */
  function Join(ins: seq<Inspection>, ds: seq<Driver>, vs: seq<Vehicle>): (r: seq<Joined>)
    ensures forall x :: x in r <==>
              x.i in ins && x.d in ds && x.d.driverId == x.i.driverId && x.v in vs && x.v.vehicleId == x.i.vehicleId
    decreases |ins|
  {
    if ins == [] then []
    else
      assert forall i :: i in ins <==> i == ins[0] || i in ins[1..];
      WithDrivers(ins[0], ds, vs) + Join(ins[1..], ds, vs)
  }

  /** A triple occurs in the vehicle join as often as its vehicle row occurs
      in the table, when it matches, and not at all otherwise. */
  lemma {:induction false} WithVehiclesCount(i: Inspection, d: Driver, vs: seq<Vehicle>, x: Joined)
    ensures multiset(WithVehicles(i, d, vs))[x] ==
              if x.i == i && x.d == d && x.v.vehicleId == i.vehicleId then multiset(vs)[x.v] else 0
    decreases |vs|
  {
    if vs != [] {
      WithVehiclesCount(i, d, vs[1..], x);
      assert vs == [vs[0]] + vs[1..];
    }
  }

  /** A triple occurs in the join of one inspection as often as its driver
      row times its vehicle row, when it matches, and not at all otherwise. */
  lemma {:induction false} WithDriversCount(i: Inspection, ds: seq<Driver>, vs: seq<Vehicle>, x: Joined)
    ensures multiset(WithDrivers(i, ds, vs))[x] ==
              if x.i == i && x.d.driverId == i.driverId && x.v.vehicleId == i.vehicleId
              then multiset(ds)[x.d] * multiset(vs)[x.v] else 0
    decreases |ds|
  {
    if ds != [] {
      var w := if ds[0].driverId == i.driverId then WithVehicles(i, ds[0], vs) else [];
      WithDriversCount(i, ds[1..], vs, x);
      WithDriversCons(i, ds, vs);
      ConcatCount(w, WithDrivers(i, ds[1..], vs), x);
      HeadCount(ds, x.d);
      if ds[0].driverId == i.driverId {
        WithVehiclesCount(i, ds[0], vs, x);
      }
      MulSplit(multiset(ds)[x.d], multiset(ds[1..])[x.d], multiset(vs)[x.v], ds[0] == x.d);
    }
  }

  lemma WithDriversCons(i: Inspection, ds: seq<Driver>, vs: seq<Vehicle>)
    requires ds != []
    ensures WithDrivers(i, ds, vs) ==
              (if ds[0].driverId == i.driverId then WithVehicles(i, ds[0], vs) else []) + WithDrivers(i, ds[1..], vs)
  {
  }

  /** The inner join holds each matching triple as often as the product of
      the occurrences of its three rows, and nothing else. */
  lemma {:induction false} JoinCount(ins: seq<Inspection>, ds: seq<Driver>, vs: seq<Vehicle>, x: Joined)
    ensures multiset(Join(ins, ds, vs))[x] ==
              if x.d.driverId == x.i.driverId && x.v.vehicleId == x.i.vehicleId
              then multiset(ins)[x.i] * (multiset(ds)[x.d] * multiset(vs)[x.v]) else 0
    decreases |ins|
  {
    if ins != [] {
      var matches := x.d.driverId == x.i.driverId && x.v.vehicleId == x.i.vehicleId;
      var m := multiset(ds)[x.d] * multiset(vs)[x.v];
      var n, rest := multiset(ins)[x.i], multiset(ins[1..])[x.i];
      var here := multiset(WithDrivers(ins[0], ds, vs))[x];
      var later := multiset(Join(ins[1..], ds, vs))[x];
      assert multiset(Join(ins, ds, vs))[x] == here + later by {
        JoinCons(ins, ds, vs);
        ConcatCount(WithDrivers(ins[0], ds, vs), Join(ins[1..], ds, vs), x);
      }
      assert n == (if ins[0] == x.i then 1 else 0) + rest by {
        HeadCount(ins, x.i);
      }
      assert here == if matches && ins[0] == x.i then m else 0 by {
        WithDriversCount(ins[0], ds, vs, x);
      }
      assert later == if matches then rest * m else 0 by {
        JoinCount(ins[1..], ds, vs, x);
      }
      CountStep(n, rest, m, here, later, ins[0] == x.i, matches);
    }
  }

  lemma JoinCons(ins: seq<Inspection>, ds: seq<Driver>, vs: seq<Vehicle>)
    requires ins != []
    ensures Join(ins, ds, vs) == WithDrivers(ins[0], ds, vs) + Join(ins[1..], ds, vs)
  {
  }

  /** The join distributes over concatenation of inspections, so the joined
      rows follow the inspections' table order. */
  lemma {:induction false} JoinAppend(a: seq<Inspection>, b: seq<Inspection>, ds: seq<Driver>, vs: seq<Vehicle>)
    ensures Join(a + b, ds, vs) == Join(a, ds, vs) + Join(b, ds, vs)
    decreases |a|
  {
    if a == [] {
      assert a + b == b;
    } else {
      assert (a + b)[0] == a[0] && (a + b)[1..] == a[1..] + b;
      JoinCons(a + b, ds, vs);
      JoinCons(a, ds, vs);
      JoinAppend(a[1..], b, ds, vs);
      AppendAssoc(WithDrivers(a[0], ds, vs), Join(a[1..], ds, vs), Join(b, ds, vs));
    }
  }

  /** With unique vehicle ids an inspection and driver join with at most
      one vehicle, and with exactly one when the vehicle exists. */
  lemma {:induction false} WithVehiclesLength(i: Inspection, d: Driver, vs: seq<Vehicle>)
    requires UniqueKeys(vs, VehicleKey)
    ensures |WithVehicles(i, d, vs)| == |Where(vs, VehicleKey, i.vehicleId)|
    ensures |WithVehicles(i, d, vs)| == if exists v :: v in vs && v.vehicleId == i.vehicleId then 1 else 0
    decreases |vs|
  {
    WhereAtMostOne(vs, VehicleKey, i.vehicleId);
    if vs != [] {
      UniqueTail(vs, VehicleKey);
      WithVehiclesLength(i, d, vs[1..]);
    }
  }

  /** With unique driver and vehicle ids an inspection joins with at most
      one pair, and with exactly one when both rows exist. */
  lemma {:induction false} WithDriversLength(i: Inspection, ds: seq<Driver>, vs: seq<Vehicle>)
    requires UniqueKeys(ds, DriverKey) && UniqueKeys(vs, VehicleKey)
    ensures |WithDrivers(i, ds, vs)| ==
              if (exists d :: d in ds && d.driverId == i.driverId) && (exists v :: v in vs && v.vehicleId == i.vehicleId)
              then 1 else 0
    decreases |ds|
  {
    if ds != [] {
      UniqueTail(ds, DriverKey);
      WithDriversLength(i, ds[1..], vs);
      WithDriversCons(i, ds, vs);
      if ds[0].driverId == i.driverId {
        WithVehiclesLength(i, ds[0], vs);
        assert forall d :: d in ds[1..] ==> d.driverId != i.driverId by {
          forall d | d in ds[1..] ensures d.driverId != i.driverId {
            var j :| 0 <= j < |ds[1..]| && ds[1..][j] == d;
          }
        }
      } else {
        assert forall d :: d in ds ==> d == ds[0] || d in ds[1..];
      }
    }
  }

  /** With unique driver and vehicle ids, and every inspection's driver and
      vehicle present, the join has exactly one row per inspection. */
  lemma {:induction false} JoinLength(ins: seq<Inspection>, ds: seq<Driver>, vs: seq<Vehicle>)
    requires UniqueKeys(ds, DriverKey) && UniqueKeys(vs, VehicleKey)
    requires forall i :: i in ins ==>
               (exists d :: d in ds && d.driverId == i.driverId) && (exists v :: v in vs && v.vehicleId == i.vehicleId)
    ensures |Join(ins, ds, vs)| == |ins|
    decreases |ins|
  {
    if ins != [] {
      assert ins[0] in ins;
      assert forall i :: i in ins[1..] ==> i in ins;
      JoinLength(ins[1..], ds, vs);
      JoinCons(ins, ds, vs);
      WithDriversLength(ins[0], ds, vs);
    }
  }

  /** `SELECT * FROM <section> WHERE inspection_id = ?` reduced to `[0] || null`:
      nothing when no row has the id, else the first row that has it. */
  ghost predicate IsFirst<F>(o: Option<Keyed<F>>, rows: seq<Keyed<F>>, id: string)
  {
    match o
    case None => forall c :: c in rows ==> c.inspectionId != id
    case Some(c) =>
      exists k :: 0 <= k < |rows| && rows[k] == c && c.inspectionId == id
                  && forall j :: 0 <= j < k ==> rows[j].inspectionId != id
  }

  lemma FirstOrNullIsFirst<F(!new)>(rows: seq<Keyed<F>>, id: string)
    ensures IsFirst(FirstOrNull(Where(rows, ChildKey, id)), rows, id)
  {
    if Where(rows, ChildKey, id) != [] {
      WhereFirst(rows, ChildKey, id);
    }
  }

  /** The answer of getInspection: the inspection row with the driver's
      first name and the vehicle's plate, and every checklist section. */
  datatype InspectionView = InspectionView(
    inspection: Inspection,
    driverName: string,
    vehiclePlate: string,
    engineChecks: Option<Keyed<EngineFields>>,
    acStatus: Option<Keyed<AcFields>>,
    bodyDamages: seq<Keyed<DamageFields>>,
    tireChecks: Option<Keyed<TireFields>>,
    lightChecks: Option<Keyed<LightFields>>,
    groundChecks: Option<Keyed<GroundFields>>,
    seatbeltChecks: Option<Keyed<SeatbeltFields>>,
    toolsCheck: Option<Keyed<ToolsFields>>)

  /** getInspection: 404 unless the inspection and both its driver and its
      vehicle exist; then the first joined row, each one-row section as its
      first row or null, and every body damage of the inspection. */
  function GetInspection(t: Tables, id: string): (r: Response<InspectionView>)
    ensures r.Success? <==>
              exists i, d, v :: i in t.inspections && i.inspectionId == id && d in t.drivers && v in t.vehicles
                                && d.driverId == i.driverId && v.vehicleId == i.vehicleId
    ensures r.Error? ==> r == Error(404, InspectionNotFound)
    ensures r.Success? ==>
              && r.code == 200
              && r.data.inspection in t.inspections && r.data.inspection.inspectionId == id
              && (exists d :: d in t.drivers && d.driverId == r.data.inspection.driverId
                              && d.info.firstName == r.data.driverName)
              && (exists v :: v in t.vehicles && v.vehicleId == r.data.inspection.vehicleId
                              && v.data.registrationNumber == r.data.vehiclePlate)
    ensures r.Success? ==>
              && IsFirst(r.data.engineChecks, t.engineChecks, id)
              && IsFirst(r.data.acStatus, t.acStatus, id)
              && IsFirst(r.data.tireChecks, t.tireChecks, id)
              && IsFirst(r.data.lightChecks, t.lightChecks, id)
              && IsFirst(r.data.groundChecks, t.groundChecks, id)
              && IsFirst(r.data.seatbeltChecks, t.seatbeltChecks, id)
              && IsFirst(r.data.toolsCheck, t.toolsCheck, id)
              && r.data.bodyDamages == Where(t.bodyDamages, ChildKey, id)
              && (forall x :: x in r.data.bodyDamages <==> x in t.bodyDamages && x.inspectionId == id)
  {
    var rows := Join(Where(t.inspections, InspectionKey, id), t.drivers, t.vehicles);
    if rows == [] then
      assert forall i, d, v ::
               (i in t.inspections && i.inspectionId == id && d in t.drivers && v in t.vehicles
                && d.driverId == i.driverId && v.vehicleId == i.vehicleId) ==> Joined(i, d, v) in rows;
      Error(404, InspectionNotFound)
    else
      var x := rows[0];
      assert x in rows;
      FirstOrNullIsFirst(t.engineChecks, id);
      FirstOrNullIsFirst(t.acStatus, id);
      FirstOrNullIsFirst(t.tireChecks, id);
      FirstOrNullIsFirst(t.lightChecks, id);
      FirstOrNullIsFirst(t.groundChecks, id);
      FirstOrNullIsFirst(t.seatbeltChecks, id);
      FirstOrNullIsFirst(t.toolsCheck, id);
      Success(200, InspectionView(
        x.i, x.d.info.firstName, x.v.data.registrationNumber,
        FirstOrNull(Where(t.engineChecks, ChildKey, id)),
        FirstOrNull(Where(t.acStatus, ChildKey, id)),
        Where(t.bodyDamages, ChildKey, id),
        FirstOrNull(Where(t.tireChecks, ChildKey, id)),
        FirstOrNull(Where(t.lightChecks, ChildKey, id)),
        FirstOrNull(Where(t.groundChecks, ChildKey, id)),
        FirstOrNull(Where(t.seatbeltChecks, ChildKey, id)),
        FirstOrNull(Where(t.toolsCheck, ChildKey, id))))
  }

  /** Deleting the driver of an inspection makes getInspection answer 404,
      though the inspection row itself stays. */
  lemma DeletedDriverHidesInspection(t: Tables, i: Inspection)
    requires i in t.inspections
    requires UniqueKeys(t.inspections, InspectionKey)
    ensures var t' := t.(drivers := Except(t.drivers, DriverKey, i.driverId));
            && i in t'.inspections
            && GetInspection(t', i.inspectionId) == Error(404, InspectionNotFound)
  {
    var t' := t.(drivers := Except(t.drivers, DriverKey, i.driverId));
    forall i' | i' in t.inspections && i'.inspectionId == i.inspectionId ensures i' == i {
      var p :| 0 <= p < |t.inspections| && t.inspections[p] == i;
      var q :| 0 <= q < |t.inspections| && t.inspections[q] == i';
      assert !(p < q) && !(q < p);
    }
  }

  /** What createDetailedInspection wrote is what getInspection reads back:
      the new row, each sent section (the request's tools_checks lands in
      tools_check), and the damage entries in order. */
  lemma SectionsReadBack(t: Tables, req: DetailedRequest, newId: string, now: int, fault: Option<Fault>)
    requires Consistent(t)
    requires DetailedResponse(t, req, newId, now, fault).Success?
    ensures var row := Inspection(newId, req.driverId.value, req.vehicleId.value, now);
            var r := GetInspection(Committed(t, row, req), newId);
            && r.Success?
            && r.data.inspection == row
            && r.data.engineChecks == FirstOrNull(One(newId, req.engineChecks))
            && r.data.acStatus == FirstOrNull(One(newId, req.acStatus))
            && r.data.bodyDamages == DamageRows(newId, Submitted(req.bodyDamages))
            && r.data.tireChecks == FirstOrNull(One(newId, req.tireChecks))
            && r.data.groundChecks == FirstOrNull(One(newId, req.groundChecks))
            && r.data.lightChecks == FirstOrNull(One(newId, req.lightChecks))
            && r.data.seatbeltChecks == FirstOrNull(One(newId, req.seatbeltChecks))
            && r.data.toolsCheck == FirstOrNull(One(newId, req.toolsChecks))
  {
    var row := Inspection(newId, req.driverId.value, req.vehicleId.value, now);
    var c := Committed(t, row, req);
    CommittedSelections(t, row, req);
    CommittedSelectionsRest(t, row, req);
    CommittedDamages(t, row, req);
    var d :| d in t.drivers && d.driverId == row.driverId;
    var v :| v in t.vehicles && v.vehicleId == row.vehicleId;
    assert Joined(row, d, v) in Join([row], c.drivers, c.vehicles);
  }

  /** In the committed store, selecting the new id finds the new inspection
      and the one-row sections the plan inserted. */
  lemma CommittedSelections(t: Tables, row: Inspection, req: DetailedRequest)
    requires Consistent(t)
    requires forall i :: i in t.inspections ==> i.inspectionId != row.inspectionId
    ensures var c := Committed(t, row, req);
            var id := row.inspectionId;
            && c.drivers == t.drivers && c.vehicles == t.vehicles
            && Where(c.inspections, InspectionKey, id) == [row]
            && Where(c.engineChecks, ChildKey, id) == One(id, req.engineChecks)
            && Where(c.acStatus, ChildKey, id) == One(id, req.acStatus)
            && Where(c.tireChecks, ChildKey, id) == One(id, req.tireChecks)
  {
    var id := row.inspectionId;
    var ins := t.inspections;
    CommittedTables(t, row, req);
    assert id !in InspectionIds(ins);
    SelectOne(t.engineChecks, ins, id, req.engineChecks);
    SelectOne(t.acStatus, ins, id, req.acStatus);
    SelectOne(t.tireChecks, ins, id, req.tireChecks);
    FreshInspection(ins, row);
  }

  /** The damage entries, in the order they were sent. */
  lemma CommittedDamages(t: Tables, row: Inspection, req: DetailedRequest)
    requires Consistent(t)
    requires forall i :: i in t.inspections ==> i.inspectionId != row.inspectionId
    ensures var id := row.inspectionId;
            Where(Committed(t, row, req).bodyDamages, ChildKey, id) == DamageRows(id, Submitted(req.bodyDamages))
  {
    var id := row.inspectionId;
    CommittedTables(t, row, req);
    assert id !in InspectionIds(t.inspections);
    FreshKey(t.bodyDamages, DamageRows(id, Submitted(req.bodyDamages)), t.inspections, id);
  }

  /** The remaining one-row sections. */
  lemma CommittedSelectionsRest(t: Tables, row: Inspection, req: DetailedRequest)
    requires Consistent(t)
    requires forall i :: i in t.inspections ==> i.inspectionId != row.inspectionId
    ensures var c := Committed(t, row, req);
            var id := row.inspectionId;
            && Where(c.groundChecks, ChildKey, id) == One(id, req.groundChecks)
            && Where(c.lightChecks, ChildKey, id) == One(id, req.lightChecks)
            && Where(c.seatbeltChecks, ChildKey, id) == One(id, req.seatbeltChecks)
            && Where(c.toolsCheck, ChildKey, id) == One(id, req.toolsChecks)
  {
    var id := row.inspectionId;
    var ins := t.inspections;
    CommittedTables(t, row, req);
    assert id !in InspectionIds(ins);
    SelectOne(t.groundChecks, ins, id, req.groundChecks);
    SelectOne(t.lightChecks, ins, id, req.lightChecks);
    SelectOne(t.seatbeltChecks, ins, id, req.seatbeltChecks);
    SelectOne(t.toolsCheck, ins, id, req.toolsChecks);
  }

  /** Selecting the new id from a table that gained rows keyed by it yields
      exactly those rows, when no old row was keyed by it. */
  lemma FreshKey<F(!new)>(rows: seq<Keyed<F>>, extra: seq<Keyed<F>>, ins: seq<Inspection>, id: string)
    requires Parented(rows, ins) && id !in InspectionIds(ins)
    requires forall k :: 0 <= k < |extra| ==> extra[k].inspectionId == id
    ensures Where(rows + extra, ChildKey, id) == extra
  {
    WhereAppend(rows, extra, ChildKey, id);
    WhereAll(extra, ChildKey, id);
    WhereNone(rows, ChildKey, id);
  }

  /** FreshKey for the row a one-row section adds. */
  lemma SelectOne<F(!new)>(rows: seq<Keyed<F>>, ins: seq<Inspection>, id: string, section: Option<F>)
    requires Parented(rows, ins) && id !in InspectionIds(ins)
    ensures Where(rows + One(id, section), ChildKey, id) == One(id, section)
  {
    FreshKey(rows, One(id, section), ins, id);
  }

  lemma FreshInspection(ins: seq<Inspection>, row: Inspection)
    requires forall i :: i in ins ==> i.inspectionId != row.inspectionId
    ensures Where(ins + [row], InspectionKey, row.inspectionId) == [row]
  {
    WhereAppend(ins, [row], InspectionKey, row.inspectionId);
    WhereNone(ins, InspectionKey, row.inspectionId);
  }

  /** One row of getTodaysInspections. */
  datatype TodayRow = TodayRow(
    inspectionId: string, inspectedAt: int,
    firstName: string, lastName: string, licenseNumber: string,
    make: string, model: string, registrationNumber: string)

  function ToTodayRow(x: Joined): TodayRow
  {
    TodayRow(x.i.inspectionId, x.i.inspectedAt,
             x.d.info.firstName, x.d.info.lastName, x.d.info.licenseNumber,
             x.v.data.make, x.v.data.model, x.v.data.registrationNumber)
  }

  /** `WHERE DATE(i.inspection_date) = CURDATE()`. */
  function OnDay(ins: seq<Inspection>, day: int): (r: seq<Inspection>)
    ensures forall i :: i in r <==> i in ins && Day(i.inspectedAt) == day
    decreases |ins|
  {
    if ins == [] then []
    else
      assert forall i :: i in ins <==> i == ins[0] || i in ins[1..];
      (if Day(ins[0].inspectedAt) == day then [ins[0]] else []) + OnDay(ins[1..], day)
  }

  /** The date filter keeps each inspection dated that day as often as the
      table holds it, and no other. */
  lemma {:induction false} OnDayCount(ins: seq<Inspection>, day: int, i: Inspection)
    ensures multiset(OnDay(ins, day))[i] == if Day(i.inspectedAt) == day then multiset(ins)[i] else 0
    decreases |ins|
  {
    if ins != [] {
      OnDayCount(ins[1..], day, i);
      OnDayCons(ins, day);
      assert ins == [ins[0]] + ins[1..];
    }
  }

  lemma OnDayCons(ins: seq<Inspection>, day: int)
    requires ins != []
    ensures OnDay(ins, day) == (if Day(ins[0].inspectedAt) == day then [ins[0]] else []) + OnDay(ins[1..], day)
  {
  }

  /** The date filter distributes over concatenation, so it keeps table order. */
  lemma {:induction false} OnDayAppend(a: seq<Inspection>, b: seq<Inspection>, day: int)
    ensures OnDay(a + b, day) == OnDay(a, day) + OnDay(b, day)
    decreases |a|
  {
    if a == [] {
      assert a + b == b;
    } else {
      assert (a + b)[0] == a[0] && (a + b)[1..] == a[1..] + b;
      OnDayCons(a + b, day);
      OnDayCons(a, day);
      OnDayAppend(a[1..], b, day);
      AppendAssoc(if Day(a[0].inspectedAt) == day then [a[0]] else [], OnDay(a[1..], day), OnDay(b, day));
    }
  }

  function TodayRows(xs: seq<Joined>): (r: seq<TodayRow>)
    ensures |r| == |xs|
    ensures forall k :: 0 <= k < |xs| ==> r[k] == ToTodayRow(xs[k])
  {
    seq(|xs|, k requires 0 <= k < |xs| => ToTodayRow(xs[k]))
  }

  /** getTodaysInspections: a row for each inspection dated today whose
      driver and vehicle both exist, with the count. */
  function GetTodaysInspections(t: Tables, now: int): (r: Response<Listing<TodayRow>>)
    ensures r.Success? && r.code == 200 && r.data.results == |r.data.items|
    ensures forall e :: e in r.data.items <==>
              exists i, d, v :: i in t.inspections && Day(i.inspectedAt) == Day(now)
                                && d in t.drivers && v in t.vehicles
                                && d.driverId == i.driverId && v.vehicleId == i.vehicleId
                                && e == ToTodayRow(Joined(i, d, v))
  {
    var xs := Join(OnDay(t.inspections, Day(now)), t.drivers, t.vehicles);
    var rows := TodayRows(xs);
    assert forall e :: e in rows <==> exists x :: x in xs && e == ToTodayRow(x) by {
      forall e | e in rows ensures exists x :: x in xs && e == ToTodayRow(x) {
        var k :| 0 <= k < |rows| && rows[k] == e;
        assert xs[k] in xs;
      }
      forall x | x in xs ensures ToTodayRow(x) in rows {
        var k :| 0 <= k < |xs| && xs[k] == x;
        assert rows[k] == ToTodayRow(x);
      }
    }
    Success(200, Listing(|rows|, rows))
  }

  /** The listing is the joined rows of today's inspections, mapped to the
      listed columns in order; with unique driver and vehicle ids and every
      driver and vehicle of today's inspections present, `results` is the
      number of inspections dated today. */
  lemma TodaysCount(t: Tables, now: int)
    requires UniqueKeys(t.drivers, DriverKey) && UniqueKeys(t.vehicles, VehicleKey)
    requires forall i :: i in t.inspections && Day(i.inspectedAt) == Day(now) ==>
               (exists d :: d in t.drivers && d.driverId == i.driverId)
               && (exists v :: v in t.vehicles && v.vehicleId == i.vehicleId)
    ensures GetTodaysInspections(t, now).data.items
            == TodayRows(Join(OnDay(t.inspections, Day(now)), t.drivers, t.vehicles))
    ensures GetTodaysInspections(t, now).data.results == |OnDay(t.inspections, Day(now))|
  {
    JoinLength(OnDay(t.inspections, Day(now)), t.drivers, t.vehicles);
  }
}
