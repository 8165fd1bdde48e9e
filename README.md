# Driver management backend — a Dafny model

The system is the REST backend of a fleet operation. It manages drivers,
vehicles and admins, and the vehicle inspections drivers submit. An
inspection is one parent row plus up to eight checklist sections: engine,
AC, body damages, tires, ground, lights, seatbelts and tools. The handlers
talk to MySQL through a connection pool. This model keeps the handlers and
the tables they read and write.

- `Store.Database` is the database, held in memory. It has one sequence of
  rows per table, the number of pool connections in use, and the state BEGIN
  saved for a ROLLBACK. Each of its methods is one SQL statement, and its
  frame names the fields that statement may write: one table for the
  parent-table statements, the eight checklist tables for a checklist
  INSERT, and the whole store for ROLLBACK. An INSERT that reuses a primary
  key is refused with `DuplicateKey`, a fixed stand-in for MySQL's
  duplicate-key message (the real one names the value and the table).
- `Database.Valid()` says the primary keys of drivers, vehicles, admins and
  inspections are unique and every checklist row belongs to a stored
  inspection. Every parent-table statement and every write handler keeps it
  when it held before. A checklist INSERT (`InsertChild`) keeps it exactly
  when its row's inspection is stored, since an orphan row breaks it; ROLLBACK
  makes it hold exactly when it held in the state BEGIN saved.
- `Query`, `Ordering` and `Text` hold the model's versions of `WHERE`,
  `ORDER BY`, `LIMIT` and `String.prototype.split`. `Schema` holds the rows.
  `Common` holds the response envelope: `Success(code, data)` or
  `Error(code, message)`.
- Handlers that only read are functions of the tables. Handlers that write
  are methods on a `Database`, with `modifies` frames. Every write handler
  is proved against the function or the table update it should perform.
- Some of the handlers' inputs cannot be computed here: the random nanoid
  id, the clock, bcrypt, jwt verification, and which statement of a
  transaction fails. Each one is a parameter. A transaction failure is a
  `Fault(at, cause)`: statement 0 is the parent INSERT, and statement k is
  the k-th planned checklist INSERT.

Timestamps are seconds in UTC, and `DATE(x) = CURDATE()` is the comparison
of `x / 86400` with `now / 86400`. String order is code-point order.

## Model

| member | source | states |
|---|---|---|
| `Common.FirstOrNull` | controllers/inspection.controller.js:120 | `rows[0] \|\| null`: null exactly when there is no row, the first row otherwise |
| `Query.Where` | controllers/driver.controller.js:60-63 | `SELECT ... WHERE key = ?` returns a row exactly when the table holds it with that key, every returned row has the key, and there are no more rows than the table has |
| `Query.Except` | controllers/driver.controller.js:129-132 | `DELETE ... WHERE key = ?` leaves a row exactly when the table holds it with another key, and no more rows than the table had |
| `Query.WhereCount` | controllers/driver.controller.js:60-63 | a selection holds each row with the key as many times as the table does, and no other row |
| `Query.ExceptCount` | controllers/driver.controller.js:129-132 | a deletion leaves each row with another key as many times as the table held it, and no other row |
| `Query.WhereAtMostOne` | controllers/driver.controller.js:60-63 | with unique keys a selection by key returns at most one row, and exactly one when some row carries the key |
| `Query.WherePartition` | controllers/driver.controller.js:129-132 | the rows a DELETE removes are exactly the rows the same SELECT returns: together they are the table, as a multiset |
| `Query.WhereAppend` | controllers/driver.controller.js:14-31 | selection distributes over concatenation, so a selection keeps table order, and after an INSERT it is the old selection followed by the new row's match |
| `Query.ExceptAppend` | controllers/driver.controller.js:129-132 | deletion distributes over concatenation, so the rows left keep table order |
| `Query.UniqueAppend` | controllers/driver.controller.js:14-19 | appending a row whose key no row carries keeps the primary key unique |
| `Query.UniqueExcept` | controllers/driver.controller.js:129-132 | deleting rows keeps the primary key unique |
| `Query.UniqueSameKeys` | controllers/driver.controller.js:86-91 | rewriting rows without touching their keys keeps the primary key unique |
| `Query.ExceptUniqueKey` | controllers/driver.controller.js:129-132 | on a table with unique keys, deleting row i's key removes exactly row i |
| `Query.WhereFirst` | controllers/inspection.controller.js:120-127 | the first selected row is the table's earliest row with that key |
| `Ordering.StrLeMeaning` | controllers/driver.controller.js:42 | the string order is dictionary order: a prefix sorts first, otherwise the first differing character decides |
| `Ordering.StrLeTotal` | controllers/driver.controller.js:42 | any two strings are ordered one way or the other |
| `Ordering.StrLeTransitive` | controllers/driver.controller.js:42 | the string order is transitive |
| `Ordering.StrLeAntisymmetric` | controllers/driver.controller.js:42 | two strings each at most the other are equal |
| `Ordering.SortBy` | controllers/vehicle.controller.js:39 | `ORDER BY` returns the same rows as its input, each as often, and as many |
| `Ordering.SortBySorted` | controllers/driver.controller.js:42 | under a total preorder, `ORDER BY` returns a sorted permutation of its input |
| `Ordering.SortedPrefix` | controllers/vehicle.controller.js:148-149 | `ORDER BY ... LIMIT n` keeps n rows, and every row it drops sorts no earlier than every row it keeps |
| `Ordering.PairLeFacts` | controllers/driver.controller.js:42 | ordering by two text columns is total and transitive |
| `Text.StartsWith` | middleware/auth.middleware.js:10 | `s.startsWith(p)` holds exactly when s is p followed by some text |
| `Text.Split` | controllers/admin.controller.js:12 | splitting on a separator gives at least one part, no part contains the separator, and there is a single part exactly when the text has no separator |
| `Text.SplitJoin` | controllers/admin.controller.js:12 | joining the parts of a split with the separator gives the text back |
| `Text.SplitWhole` | middleware/auth.middleware.js:11 | a text without the separator splits into itself alone |
| `Text.SplitAfter` | controllers/admin.controller.js:12 | the first part of `head + sep + tail` is `head` when head has no separator |
| `Schema.UpdateDrivers` | controllers/driver.controller.js:86-95 | `UPDATE drivers ... WHERE driver_id = ?` rewrites the five profile fields of the matching rows and leaves ids, login columns, other rows and the order alone |
| `Schema.UpdateVehicles` | controllers/vehicle.controller.js:77-86 | `UPDATE vehicles ... WHERE vehicle_id = ?` rewrites the data of the matching rows and leaves every other row alone |
| `Schema.AddChildrenAppend` | controllers/inspection.controller.js:189-284 | running two batches of checklist INSERTs one after the other is running their concatenation |
| `Schema.AddChildrenKeepsParents` | controllers/inspection.controller.js:189-284 | checklist INSERTs never change drivers, vehicles, admins or inspections |
| `Schema.ConsistentAddChild` | controllers/inspection.controller.js:191-283 | a checklist INSERT on a consistent store keeps it consistent exactly when the row's inspection is stored |
| `Schema.ConsistentAddInspection` | controllers/inspection.controller.js:181-186 | an inspection INSERT with a free id keeps the keys unique and every checklist row attached to a stored inspection |
| `Store.Database.InsertDriver` | controllers/driver.controller.js:14-19 | the row is appended exactly when its id is free; otherwise the table is unchanged; `Valid()` holds afterwards when it held before |
| `Store.Database.UpdateDriver` | controllers/driver.controller.js:86-91 | affectedRows is the number of matching rows and the table becomes `UpdateDrivers` of the old one; `Valid()` holds afterwards when it held before |
| `Store.Database.DeleteDriver` | controllers/driver.controller.js:129-132 | affectedRows is the number of matching rows and the table keeps exactly the others; `Valid()` holds afterwards when it held before |
| `Store.Database.InsertVehicle` | controllers/vehicle.controller.js:14-19 | the row is appended exactly when its id is free; otherwise the table is unchanged; `Valid()` holds afterwards when it held before |
| `Store.Database.UpdateVehicle` | controllers/vehicle.controller.js:77-82 | affectedRows is the number of matching rows and the table becomes `UpdateVehicles` of the old one; `Valid()` holds afterwards when it held before |
| `Store.Database.DeleteVehicle` | controllers/vehicle.controller.js:117-120 | affectedRows is the number of matching rows and the table keeps exactly the others; `Valid()` holds afterwards when it held before |
| `Store.Database.InsertAdmin` | controllers/admin.controller.js:15-20 | the row is appended exactly when the admin id is free; `Valid()` holds afterwards when it held before |
| `Store.Database.InsertInspection` | controllers/inspection.controller.js:182-186 | the parent row is appended exactly when the inspection id is free; `Valid()` holds afterwards when it held before |
| `Store.Database.InsertChild` | controllers/inspection.controller.js:191-283 | one checklist INSERT appends its row to its own table and changes nothing else; on a valid store it keeps `Valid()` exactly when the row's inspection is stored |
| `Store.Database.Acquire` | controllers/inspection.controller.js:176 | taking a connection raises the count in use by one |
| `Store.Database.Release` | controllers/inspection.controller.js:300-302 | releasing lowers it by one |
| `Store.Database.Begin` | controllers/inspection.controller.js:177 | BEGIN saves the current tables |
| `Store.Database.Commit` | controllers/inspection.controller.js:287 | COMMIT keeps the writes and closes the transaction |
| `Store.Database.Rollback` | controllers/inspection.controller.js:297-298 | ROLLBACK puts every table back to what BEGIN saw, so `Valid()` holds afterwards exactly when it held in that saved state |
| `VehicleValidation.ValidateVehicle` | utils/vehicleValidation.js:2-14 | a missing or falsy required field gives 400 "Missing required vehicle fields"; otherwise a year outside 1900..currentYear+1 gives 400 "Invalid vehicle year"; otherwise the body passes |
| `VehicleValidation.ValidateVehicleAsWritten` | utils/vehicleValidation.js:5-11 | as written, every rejection becomes a 500, because `AppError` is not imported |
| `VehicleValidation.AsWrittenRejectsWithServerError` | utils/vehicleValidation.js:9-10 | for a body with year 1899, the code as written answers 500 where 400 is intended |
| `VehicleValidation.YearBoundaries` | utils/vehicleValidation.js:9 | years 1900 and currentYear+1 pass; 1899 and currentYear+2 fail |
| `VehicleValidation.YearZeroIsMissing` | utils/vehicleValidation.js:5 | year 0 is falsy, so it is reported as a missing field and not as an invalid year |
| `VehicleValidation.MissingCheckedFirst` | utils/vehicleValidation.js:5-11 | a missing field is reported even when the year is also out of range |
| `VehicleValidation.VinIgnored` | utils/vehicleValidation.js:3 | the vin, which is not one of the required fields, never changes the verdict, as intended or as written |
| `AuthMiddleware.BearerToken` | middleware/auth.middleware.js:9-12 | a token is found only in a header that starts with "Bearer", and it is non-empty and contains no space |
| `AuthMiddleware.BearerTokenRoundTrip` | middleware/auth.middleware.js:10-11 | `"Bearer " + token`, optionally followed by a space and more text, yields exactly the token, for any non-empty token without a space |
| `AuthMiddleware.BearerWithoutToken` | middleware/auth.middleware.js:11 | a header "Bearer" alone, or "Bearer" followed by two spaces, yields no token |
| `AuthMiddleware.RoleOf` | middleware/auth.middleware.js:34 | the role is the token's role when it is non-empty, and "driver" otherwise |
| `AuthMiddleware.Authenticate` | middleware/auth.middleware.js:7-36 | no token gives 401; a token jwt rejects gives 401; a token whose driver id has no row gives 401; otherwise the user is that driver's id with `RoleOf` the claims |
| `AuthMiddleware.NoTokenNoLookup` | middleware/auth.middleware.js:14-16 | without a token the answer does not depend on the drivers table |
| `AuthMiddleware.Protect` | middleware/auth.middleware.js:32-36 | the decision is `Authenticate`'s; `req.user` becomes the granted user on success and is left alone on denial |
| `AuthController.SafeData` | controllers/auth.controller.js:77 | the safe row keeps id, profile and the active flag |
| `AuthController.SafeDataHidesSecrets` | controllers/auth.controller.js:77-85 | rows that differ only in password hash, salt or reset token give the same response data |
| `AuthController.Active` | controllers/auth.controller.js:47 | `is_active = TRUE` keeps exactly the active rows |
| `AuthController.ActiveCount` | controllers/auth.controller.js:47 | the filter keeps each active row as many times as the result set holds it, and no inactive row |
| `AuthController.ActiveAppend` | controllers/auth.controller.js:47 | the filter distributes over concatenation, so active rows keep their order and `rows[0]` is the first active row |
| `AuthController.AdminLogin` | controllers/auth.controller.js:8-39 | success exactly when an admin has that email and its hash verifies; the token carries that admin's id, no role and a one-day expiry; every failure is the same 401 |
| `AuthController.DriverLogin` | controllers/auth.controller.js:42-86 | success exactly when an active driver has that id and its hash verifies; the token carries the id, role "driver" and a 30-day expiry, and the data is the safe row |
| `AuthController.DriverLoginFailuresAlike` | controllers/auth.controller.js:51-61 | an unknown or inactive driver and a wrong password give the same 401 |
| `AuthController.AdminLoginFailuresAlike` | controllers/auth.controller.js:18-28 | an unknown email and a wrong password give the same 401 |
| `AdminController.AdminId` | controllers/admin.controller.js:12 | the admin id is the part of the email before the first '@', or the whole email when it has none |
| `AdminController.AdminIdIsPrefix` | controllers/admin.controller.js:12 | the first part of a split is a prefix of the input, followed by the separator when it is shorter |
| `AdminController.AdminIdOfLocalPart` | controllers/admin.controller.js:12 | `local@domain` gets admin id `local`, so two emails with the same local part collide |
| `AdminController.AdminRow` | controllers/admin.controller.js:15-19 | the inserted row carries the derived id, the body's first name, last name, email and phone number, and the hash and salt hashPassword returned |
| `AdminController.CreateAdmin` | controllers/admin.controller.js:7-26 | 201 with the admin id and one new row exactly when the id is free; otherwise 500 and no change; `Valid()` is kept |
| `DriverController.CreateDriver` | controllers/driver.controller.js:9-32 | 201 with the row as inserted exactly when the id is free, and the row is appended; otherwise 500 and no change; `Valid()` is kept |
| `DriverController.NameOrderIsTotal` | controllers/driver.controller.js:42 | last name then first name is a total preorder |
| `DriverController.GetAllDrivers` | controllers/driver.controller.js:40-52 | every driver exactly once, sorted by last then first name, with `results` the count |
| `DriverController.GetDriver` | controllers/driver.controller.js:59-75 | 404 exactly when no row has the id; otherwise 200 with a row that has it |
| `DriverController.UpdateDriver` | controllers/driver.controller.js:82-108 | 404 and no change when no row matches; otherwise the profile fields are overwritten and 200 returns an updated row; `Valid()` is kept |
| `DriverController.UpdateWithoutMatch` | controllers/driver.controller.js:86-95 | an update that matches nothing leaves the table as it was |
| `DriverController.DeleteDriver` | controllers/driver.controller.js:115-142 | 404 and no change when absent; otherwise 204 and exactly the other rows stay; `Valid()` is kept |
| `DriverController.DeletedDriverIsGone` | controllers/driver.controller.js:119-136 | after the delete the driver is not found, and every other driver is found exactly when it was before |
| `VehicleController.CreateVehicle` | controllers/vehicle.controller.js:9-32 | 201 with the new vehicle exactly when the id is free, and the row is appended; otherwise 500 and no change; `Valid()` is kept |
| `VehicleController.MakeModelOrderIsTotal` | controllers/vehicle.controller.js:39 | make then model is a total preorder |
| `VehicleController.GetAllVehicles` | controllers/vehicle.controller.js:37-49 | every vehicle exactly once, sorted by make then model, with `results` the count |
| `VehicleController.GetVehicle` | controllers/vehicle.controller.js:53-69 | 404 exactly when no row has the id; otherwise 200 with a row that has it |
| `VehicleController.UpdateVehicle` | controllers/vehicle.controller.js:73-99 | 404 and no change when no row matches; otherwise the data is overwritten and 200 returns an updated row; `Valid()` is kept |
| `VehicleController.UpdateVehicleWithoutMatch` | controllers/vehicle.controller.js:77-86 | an update that matches nothing leaves the table as it was |
| `VehicleController.DeleteVehicle` | controllers/vehicle.controller.js:103-130 | 404 and no change when absent; otherwise 204 and exactly the other rows stay; `Valid()` is kept |
| `VehicleController.DeletedVehicleIsGone` | controllers/vehicle.controller.js:107-120 | with unique ids, deleting vehicle i removes exactly row i; the vehicle is then not found and every other id is unaffected |
| `VehicleController.HasDamages` | controllers/vehicle.controller.js:144 | `has_damages` holds exactly when some body-damage row has that inspection id |
| `VehicleController.EntriesFor` | controllers/vehicle.controller.js:145-146 | an inspection joins with exactly the drivers that have its driver id |
| `VehicleController.EntriesForRows` | controllers/vehicle.controller.js:145-146 | an inspection yields one entry per driver row with its driver id, in table order, each built from that inspection and that driver |
| `VehicleController.HistoryJoin` | controllers/vehicle.controller.js:139-147 | an entry is in the join exactly when it comes from one of the given inspections and a driver with its driver id |
| `VehicleController.HistoryJoinAppend` | controllers/vehicle.controller.js:139-147 | the join distributes over concatenation of inspections, so entries follow the inspections' table order |
| `VehicleController.HistoryJoinOne` | controllers/vehicle.controller.js:139-147 | a single inspection contributes exactly its own entries |
| `VehicleController.HistoryJoinCount` | controllers/vehicle.controller.js:139-147 | with unique driver ids the join has at most one entry per inspection, and exactly one per inspection when every inspection's driver exists |
| `VehicleController.VehicleRows` | controllers/vehicle.controller.js:139-147 | a history row is there exactly when it comes from an inspection of this vehicle and a driver with the inspection's driver id |
| `VehicleController.VehicleRowsCount` | controllers/vehicle.controller.js:139-147 | with unique driver ids a vehicle has at most as many history rows as inspections, and exactly as many when all their drivers exist |
| `VehicleController.MostRecent` | controllers/vehicle.controller.js:148-149 | at most 30 entries, newest first, taken from the input, none older than an entry left out, and all of them when there are at most 30 |
| `VehicleController.NewestFirst` | controllers/vehicle.controller.js:148-149 | a prefix of newest-first rows is newest first, and no row left out is newer than a row kept |
| `VehicleController.GetVehicleInspections` | controllers/vehicle.controller.js:135-166 | always 200; the history is `MostRecent` of the vehicle's joined inspections; the vehicle part is absent exactly when no vehicle row has the id, else the make, model and year of one that does |
| `VehicleController.AllHistoryWhenFew` | controllers/vehicle.controller.js:139-151 | a vehicle with N <= 30 inspections whose drivers all exist gets N history rows back, the same rows as the unlimited join |
| `VehicleController.HistoryEntryMeaning` | controllers/vehicle.controller.js:139-151 | every history entry belongs to an inspection of this vehicle and its driver, and `has_damages` means that body-damage rows exist |
| `InspectionController.Day` | controllers/inspection.controller.js:167 | `DATE(ts)` is the day whose 86400-second window holds ts |
| `InspectionController.SameDay` | controllers/inspection.controller.js:167 | two timestamps share a date exactly when one lies in the window from midnight of the other's date to the next midnight |
| `InspectionController.LoggedToday` | controllers/inspection.controller.js:164-169 | the same-day query finds a row exactly when an inspection of this driver and vehicle is timed between today's midnight and the next |
| `InspectionController.Admit` | controllers/inspection.controller.js:154-173 | 404 exactly when the driver or the vehicle has no row; else 400 exactly when the pair already has an inspection today; else admitted |
| `InspectionController.AdmittedKeepsOnePerDay` | controllers/inspection.controller.js:164-173 | an admitted inspection added to a table with at most one inspection per driver, vehicle and day keeps that so |
| `InspectionController.One` | controllers/inspection.controller.js:191-208 | a `section && INSERT` writes one row for that inspection when the section is given and none otherwise |
| `InspectionController.DamageRows` | controllers/inspection.controller.js:211-218 | one body-damage row per submitted damage, in order, all for that inspection |
| `InspectionController.Plan` | controllers/inspection.controller.js:189-284 | every planned checklist row belongs to the new inspection, and there is one per submitted damage plus at most seven more |
| `InspectionController.Committed` | controllers/inspection.controller.js:181-287 | a commit keeps drivers, vehicles and admins and appends exactly the new row to inspections |
| `InspectionController.TransactionFailure` | controllers/inspection.controller.js:181-284 | the transaction fails exactly when a statement of the plan faults, the id is taken, or `body_damages` is null; the first of these in statement order gives the message: a fault on the parent INSERT its cause, then a taken id `DuplicateKey`, then a null list the TypeError, then a fault on a checklist INSERT its cause |
| `InspectionController.DetailedResponse` | controllers/inspection.controller.js:134-303 | 400 without both ids, then the `Admit` answers, then 201 with the id, or 500 "Inspection creation failed: " and the failure's message |
| `InspectionController.MissingIdsChecked` | controllers/inspection.controller.js:149-151 | a missing id gives 400 whatever the tables hold |
| `InspectionController.UnknownRowsRejected` | controllers/inspection.controller.js:154-161 | an unknown driver or vehicle gives 404 |
| `InspectionController.SameDayRejected` | controllers/inspection.controller.js:164-173 | a second inspection of the pair on the same day gives 400 |
| `InspectionController.AddDamages` | controllers/inspection.controller.js:211-218 | the body-damage INSERTs append exactly `DamageRows` to their table |
| `InspectionController.AddOne` | controllers/inspection.controller.js:191-201 | a planned single INSERT appends its row to its table |
| `InspectionController.AddEngine` | controllers/inspection.controller.js:191-201 | the engine INSERT appends `One` of the section to engine_checks |
| `InspectionController.AddAc` | controllers/inspection.controller.js:204-208 | the AC INSERT appends `One` of the section to ac_status |
| `InspectionController.AddTire` | controllers/inspection.controller.js:221-233 | the tire INSERT appends `One` of the section to tire_checks |
| `InspectionController.AddGround` | controllers/inspection.controller.js:236-241 | the ground INSERT appends `One` of the section to ground_checks |
| `InspectionController.AddLight` | controllers/inspection.controller.js:244-254 | the light INSERT appends `One` of the section to light_checks |
| `InspectionController.AddSeatbelt` | controllers/inspection.controller.js:257-269 | the seatbelt INSERT appends `One` of the section to seatbelt_checks |
| `InspectionController.AddTools` | controllers/inspection.controller.js:272-283 | the tools INSERT appends `One` of the section to tools_check |
| `InspectionController.CommittedTables` | controllers/inspection.controller.js:181-284 | a committed inspection adds the parent row and, to each checklist table, exactly the rows of its section; drivers, vehicles and admins stay |
| `InspectionController.InsertPlan` | controllers/inspection.controller.js:189-284 | the checklist INSERTs run in order; they fail exactly at a faulting statement of the plan, and otherwise leave `AddChildren` of the plan |
| `InspectionController.RunStatements` | controllers/inspection.controller.js:181-284 | the statements inside the transaction fail exactly as `TransactionFailure` says, and on success leave the committed tables |
| `InspectionController.RunTransaction` | controllers/inspection.controller.js:176-302 | the failure is `TransactionFailure`; on success the tables are committed, on failure they are rolled back; the connection is released and no transaction stays open |
| `InspectionController.CreateDetailedInspection` | controllers/inspection.controller.js:134-303 | the answer is `DetailedResponse`; the tables hold the committed inspection after a 201 and are unchanged after any error; `Valid()` is kept |
| `InspectionController.CommittedKeepsConsistent` | controllers/inspection.controller.js:181-284 | a committed inspection keeps the four primary keys unique and every checklist row attached to a stored inspection |
| `InspectionController.CreatedHasParents` | controllers/inspection.controller.js:153-161 | a created detailed inspection names a driver and a vehicle that exist in the store it is committed to |
| `InspectionController.DetailedKeepsOnePerDay` | controllers/inspection.controller.js:164-186 | a successful detailed inspection keeps one inspection per driver, vehicle and day, and an immediate retry gets 400 |
| `InspectionController.DailyAsWritten` | controllers/inspection.controller.js:6-53 | as written the daily handler never succeeds: an admitted request ends in 500 "mileage is not defined" |
| `InspectionController.DailyAsWrittenFails` | controllers/inspection.controller.js:37-43 | with one driver and one vehicle and no inspection, the code as written answers 500 where the corrected handler answers 201 |
| `InspectionController.DailyResponse` | controllers/inspection.controller.js:10-52 | the corrected daily handler: the `Admit` answers, then 201 "Daily inspection logged successfully" with the new id when it is free, else 500 |
| `InspectionController.CreateDailyInspection` | controllers/inspection.controller.js:6-53 | the answer is `DailyResponse`, and the inspection row is appended exactly on a 201; `Valid()` is kept |
| `InspectionController.DailyKeepsOnePerDay` | controllers/inspection.controller.js:25-43 | a successful daily inspection keeps one inspection per driver, vehicle and day |
| `InspectionController.WithVehicles` | controllers/inspection.controller.js:87 | an inspection and driver join with exactly the vehicles that have its vehicle id |
| `InspectionController.WithVehiclesCount` | controllers/inspection.controller.js:87 | a matching triple occurs as often as its vehicle row occurs in the table, any other triple not at all |
| `InspectionController.WithVehiclesLength` | controllers/inspection.controller.js:87 | with unique vehicle ids an inspection joins with one vehicle when its vehicle exists and with none otherwise |
| `InspectionController.WithDrivers` | controllers/inspection.controller.js:86-87 | an inspection joins with exactly the driver and vehicle pairs that match its ids |
| `InspectionController.WithDriversCount` | controllers/inspection.controller.js:86-87 | a matching triple occurs as often as its driver row times its vehicle row occur, any other triple not at all |
| `InspectionController.WithDriversLength` | controllers/inspection.controller.js:86-87 | with unique driver and vehicle ids an inspection yields one row when both its driver and its vehicle exist and none otherwise |
| `InspectionController.Join` | controllers/inspection.controller.js:85-87 | a triple is in the join exactly when its inspection, driver and vehicle exist and match by id |
| `InspectionController.JoinCount` | controllers/inspection.controller.js:85-87 | the inner join holds each matching triple as often as the product of the occurrences of its inspection, driver and vehicle rows, and nothing else |
| `InspectionController.JoinAppend` | controllers/inspection.controller.js:85-87 | the join distributes over concatenation of inspections, so joined rows follow the inspections' table order |
| `InspectionController.JoinLength` | controllers/inspection.controller.js:85-87 | with unique driver and vehicle ids and every inspection's driver and vehicle present, the join has exactly one row per inspection |
| `InspectionController.FirstOrNullIsFirst` | controllers/inspection.controller.js:120-127 | `rows[0] \|\| null` over a WHERE result is null exactly when no row has the id, and is otherwise the earliest such row |
| `InspectionController.GetInspection` | controllers/inspection.controller.js:77-130 | 404 exactly when no inspection with the id joins with a driver and a vehicle; otherwise 200 with such a row, the driver's first name and the plate, the first row of each single section, and the body damages as `WHERE inspection_id = ?` returns them, which are exactly that inspection's |
| `InspectionController.DeletedDriverHidesInspection` | controllers/inspection.controller.js:81-92 | once the driver of an inspection is deleted, that inspection is reported as not found |
| `InspectionController.SectionsReadBack` | controllers/inspection.controller.js:95-128 | reading back a committed detailed inspection gives its parent row, each submitted section, and the submitted damages in order |
| `InspectionController.CommittedSelections` | controllers/inspection.controller.js:105-108 | after a commit, selecting the new id from inspections, engine, AC and tires gives exactly the rows it wrote |
| `InspectionController.CommittedDamages` | controllers/inspection.controller.js:107 | after a commit, selecting the new id from body_damages gives exactly the submitted damages, in order |
| `InspectionController.CommittedSelectionsRest` | controllers/inspection.controller.js:109-112 | after a commit, selecting the new id from ground, lights, seatbelts and tools gives exactly the rows it wrote |
| `InspectionController.FreshKey` | controllers/inspection.controller.js:181-186 | when the new id is free, no old checklist row refers to it |
| `InspectionController.FreshInspection` | controllers/inspection.controller.js:181-186 | when the new id is free, selecting it after the INSERT gives just the new row |
| `InspectionController.OnDay` | controllers/inspection.controller.js:64 | `DATE(i.inspection_date) = CURDATE()` keeps exactly the inspections dated on that day |
| `InspectionController.OnDayCount` | controllers/inspection.controller.js:64 | the date filter keeps each inspection dated that day as often as the table holds it, and no other |
| `InspectionController.OnDayAppend` | controllers/inspection.controller.js:64 | the date filter distributes over concatenation, so it keeps table order |
| `InspectionController.TodayRows` | controllers/inspection.controller.js:58-60 | the listed columns, one row per joined triple |
| `InspectionController.GetTodaysInspections` | controllers/inspection.controller.js:56-74 | always 200; a row is listed exactly when it comes from an inspection dated today that joins with its driver and its vehicle, and `results` is the count |
| `InspectionController.TodaysCount` | controllers/inspection.controller.js:56-74 | the listing is today's inspections joined with their drivers and vehicles, in order; with unique ids and every driver and vehicle present, `results` is the number of inspections dated today |

## Left out

- HTTP routing, `app.js`, the global error handler, `AppError` and `catchAsync` are not part of this model. The response codes are the ones these pass through. An error the MySQL driver throws becomes a 500 with the driver's message.
- `AuthMiddleware.Authenticate`: a token jwt rejects is answered with 401 and jwt's message. In the code it reaches the error handler, which is not part of this model, so the actual status is not pinned down.
- Passwords and tokens: bcrypt hashing, `bcrypt.compare` and jwt signing and verification are parameters. The admin flow passes a salt to `verifyPassword` (utils/authUtils.js:11-12), which ignores it; so does the model.
- Ids: nanoid and the clock are parameters (`newId`, `now`). Timestamps are whole seconds in UTC. The server's time zone, and DATE on a DATETIME column, are not modelled.
- Collation: string order is code-point order, not MySQL's case-insensitive collation, and key equality is exact. Under that collation `John` and `john` are the same key: `AdminController.CreateAdmin` would refuse the second as a duplicate, and `AuthController.AdminLogin`, `AuthController.DriverLogin`, `DriverController.GetDriver` and `VehicleController.GetVehicle` would find a row whose key differs only in case. The model treats them as different keys.
- Request bodies are taken to hold every field the handlers read. An absent field that mysql2 refuses as an undefined bind parameter, and an admin body without `email` (whose `split` throws), are not modelled; neither is a jwt payload without `id`, nor `bcrypt.compare` throwing on a non-string password or a NULL hash. `AuthController.AdminLogin`, `AuthController.DriverLogin`, `AuthMiddleware.Authenticate`, `AdminController.CreateAdmin`, `DriverController.CreateDriver`, `DriverController.UpdateDriver`, `VehicleController.CreateVehicle` and `VehicleController.UpdateVehicle` therefore have no path for these errors.
- Where (`Query.Where`): its own ensures give membership, the key and a length bound only. The multiplicity of each row is stated by `Query.WhereCount`, and table order by `Query.WhereAppend`. They are kept as lemmas so that the many proofs that unfold selections stay small.
- Except (`Query.Except`): likewise, multiplicity is stated by `Query.ExceptCount` and table order by `Query.ExceptAppend`.
- Active (`AuthController.Active`): its own ensures give membership only; multiplicity is stated by `AuthController.ActiveCount` and order by `AuthController.ActiveAppend`.
- EntriesFor (`VehicleController.EntriesFor`): its own ensures give membership only; the entries one by one, in driver order, are stated by `VehicleController.EntriesForRows`.
- HistoryJoin (`VehicleController.HistoryJoin`): its own ensures give membership only; order is stated by `VehicleController.HistoryJoinAppend` and `VehicleController.HistoryJoinOne`, and the count by `VehicleController.HistoryJoinCount`.
- VehicleRows (`VehicleController.VehicleRows`): its own ensures give membership only; the count is stated by `VehicleController.VehicleRowsCount`, and the page returned for at most 30 inspections by `VehicleController.AllHistoryWhenFew`.
- WithVehicles (`InspectionController.WithVehicles`): its own ensures give membership only; multiplicity is stated by `InspectionController.WithVehiclesCount` and the count by `InspectionController.WithVehiclesLength`.
- WithDrivers (`InspectionController.WithDrivers`): its own ensures give membership only; multiplicity is stated by `InspectionController.WithDriversCount` and the count by `InspectionController.WithDriversLength`.
- Join (`InspectionController.Join`): its own ensures give membership only; multiplicity is stated by `InspectionController.JoinCount`, order by `InspectionController.JoinAppend` and the count by `InspectionController.JoinLength`.
- OnDay (`InspectionController.OnDay`): its own ensures give membership only; multiplicity is stated by `InspectionController.OnDayCount` and order by `InspectionController.OnDayAppend`.
- GetTodaysInspections (`InspectionController.GetTodaysInspections`): its own ensures give membership and `results == |items|`; that the items are exactly the ordered join, and that `results` is the number of inspections dated today when ids are unique and every referenced row exists, are stated by `InspectionController.TodaysCount`. Without unique ids, one item per matching driver and vehicle pair is stated by `InspectionController.JoinCount`.
- `VehicleValidation.ValidateVehicle`: the year is taken to be a number (or absent). A JSON string year and JavaScript's coercion of it in the comparisons are not modelled: "abc" becomes NaN and passes both range checks, and "1899" is coerced to a number and rejected.
- SELECT statements never fail in the model; only INSERTs can be refused, by a duplicate key or by a `Fault`.
- `InspectionController.RunTransaction`: `getConnection` and BEGIN never fail in the model. In the source they run before the `try` (controllers/inspection.controller.js:176-177), so a failing BEGIN skips the `finally` and the connection is never released; that leak is not modelled. COMMIT never fails either.
- `VehicleController.HasDamages`: a boolean, where MySQL's `EXISTS` yields 0 or 1 in the JSON.
- Concurrency: the `Promise.all` INSERTs of a detailed inspection are modelled in source order. No other request runs between the same-day check and the INSERT, so the race that could store two inspections on the same day is not modelled. For the same reason the "could not be deleted" 500 branches of the delete handlers cannot be taken in the model.
- `InspectionController.RunTransaction`: requires that no transaction is open on the store. It models one connection's transaction at a time, not isolation between connections.
- A null `body_damages` throws after the parent INSERT. The model does not write the engine and AC rows issued before the throw, because the rollback removes them anyway.
- Checklist sections are either absent or an object with their columns, and `body_damages` is absent, `null` or an array of damage objects. A truthy non-object one-row section, and an undefined column that mysql2 refuses as a bind parameter, are not modelled. Nor is a `body_damages` that is neither an array nor `null`. For `{}`, `.length` is undefined, so no damage row is written and the commit goes through. For a string such as `"ab"`, `.length` is 2 and `.map` throws a TypeError, so the transaction rolls back and the answer is 500 (controllers/inspection.controller.js:211-212).
- The vehicle validator is modelled on its own. routes/vehicle.routes.js:14,21 mount it in front of createVehicle and updateVehicle; that routing chain is not modelled, so `VehicleController.CreateVehicle` and `VehicleController.UpdateVehicle` accept any body.
- `InspectionController.CreateDailyInspection`: takes the body's ids as strings. An absent id, which mysql2 refuses as an undefined bind parameter, is not modelled.
- Pool configuration (`config/db.js`) is not modelled beyond the count of connections in use.

## Findings

| source | as written | input that shows it | evidently intended | confidence | as-written member | corrected member |
|---|---|---|---|---|---|---|
| utils/vehicleValidation.js:6 | `AppError` is used but never imported, so each rejection throws a ReferenceError and becomes a 500 | registration, make and model given, year 1899 | 400 "Invalid vehicle year" (or 400 "Missing required vehicle fields") | not executed | `VehicleValidation.AsWrittenRejectsWithServerError` | `VehicleValidation.ValidateVehicle` |
| controllers/inspection.controller.js:37-43 | the INSERT binds `mileage`, which is never declared, and has four placeholders for three columns, so every admitted daily inspection ends in 500 | a known driver and vehicle with no inspection today | 201 "Daily inspection logged successfully" and one new inspection row | not executed | `InspectionController.DailyAsWrittenFails` | `InspectionController.CreateDailyInspection` |
