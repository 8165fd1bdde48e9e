/** The validateVehicle middleware that guards vehicle creation and update:
    the four required fields must be truthy and the year must lie between
    1900 and next year. The current year is a parameter. */
module VehicleValidation {
  import opened Common

  /** The request body as the middleware sees it: absent/null fields are None. */
  datatype VehicleBody = VehicleBody(
    registrationNumber: Option<string>, make: Option<string>, model: Option<string>,
    year: Option<int>, vin: Option<string>)

  /** `next()` or `next(error)`. */
  datatype Verdict = Pass | Fail(code: int, message: string)

  const MissingFields := "Missing required vehicle fields"
  const InvalidYear := "Invalid vehicle year"
  const EarliestYear := 1900

  /** JavaScript truthiness of a numeric field: absent, null and 0 are falsy. */
  predicate YearTruthy(y: Option<int>)
  {
    y.Some? && y.value != 0
  }

  predicate HasRequiredFields(b: VehicleBody)
  {
    Truthy(b.registrationNumber) && Truthy(b.make) && Truthy(b.model) && YearTruthy(b.year)
  }

  /** The decision the middleware is meant to take: missing fields first,
      then the year range, each rejected with 400. */
  function ValidateVehicle(b: VehicleBody, currentYear: int): (v: Verdict)
    ensures v.Pass? <==>
              && Truthy(b.registrationNumber) && Truthy(b.make) && Truthy(b.model)
              && b.year.Some? && b.year.value != 0
              && EarliestYear <= b.year.value <= currentYear + 1
    ensures v.Fail? ==> v.code == 400
    ensures v.Fail? ==> (v.message == MissingFields <==> !HasRequiredFields(b))
    ensures v.Fail? ==> (v.message == InvalidYear <==> HasRequiredFields(b))
  {
    if !HasRequiredFields(b) then Fail(400, MissingFields)
    else if b.year.value < EarliestYear || b.year.value > currentYear + 1 then Fail(400, InvalidYear)
    else Pass
  }

  /** The middleware as written: AppError is used without being imported, so
      each rejecting branch throws a ReferenceError instead, which Express
      hands to the error handler as an unexpected error (500). */
  function ValidateVehicleAsWritten(b: VehicleBody, currentYear: int): (v: Verdict)
    ensures v.Pass? <==> ValidateVehicle(b, currentYear).Pass?
    ensures v.Fail? ==> v == Fail(500, "AppError is not defined")
  {
    if !HasRequiredFields(b) then Fail(500, "AppError is not defined")
    else if b.year.value < EarliestYear || b.year.value > currentYear + 1 then Fail(500, "AppError is not defined")
    else Pass
  }

  /** A body with a pre-1900 year: the written code answers 500 where 400 was meant. */
  lemma AsWrittenRejectsWithServerError(currentYear: int)
    ensures var b := VehicleBody(Some("KJA-123"), Some("Toyota"), Some("Hiace"), Some(1899), None);
            && ValidateVehicleAsWritten(b, currentYear) == Fail(500, "AppError is not defined")
            && ValidateVehicle(b, currentYear) == Fail(400, InvalidYear)
  {
  }

  /** Year bounds are inclusive: 1900 and next year pass, 1899 and the year
      after next fail. */
  lemma YearBoundaries(b: VehicleBody, currentYear: int)
    requires Truthy(b.registrationNumber) && Truthy(b.make) && Truthy(b.model)
    requires currentYear >= EarliestYear
    ensures ValidateVehicle(b.(year := Some(1900)), currentYear) == Pass
    ensures ValidateVehicle(b.(year := Some(currentYear + 1)), currentYear) == Pass
    ensures ValidateVehicle(b.(year := Some(1899)), currentYear) == Fail(400, InvalidYear)
    ensures ValidateVehicle(b.(year := Some(currentYear + 2)), currentYear) == Fail(400, InvalidYear)
  {
  }

  /** Year 0 is falsy, so it is reported as a missing field, not a bad year. */
  lemma YearZeroIsMissing(b: VehicleBody, currentYear: int)
    ensures ValidateVehicle(b.(year := Some(0)), currentYear) == Fail(400, MissingFields)
  {
  }

  /** The missing-field check wins over the year check. */
  lemma MissingCheckedFirst(b: VehicleBody, currentYear: int)
    requires !Truthy(b.make)
    requires b.year.Some? && b.year.value < EarliestYear
    ensures ValidateVehicle(b, currentYear) == Fail(400, MissingFields)
  {
  }

  /** The vin is never looked at. */
  lemma VinIgnored(b: VehicleBody, vin: Option<string>, currentYear: int)
    ensures ValidateVehicle(b.(vin := vin), currentYear) == ValidateVehicle(b, currentYear)
    ensures ValidateVehicleAsWritten(b.(vin := vin), currentYear) == ValidateVehicleAsWritten(b, currentYear)
  {
  }
}
