/** Admin and driver login. Both only read the store; every way a login can
    fail gives one and the same 401 answer, and a token is issued only once
    the password has been checked. Password checking (bcrypt) is the
    caller-supplied `verify(plain, storedHash)`; the salt argument the admin
    flow passes along is ignored by the helper, so it does not appear here. */
module AuthController {
  import opened Common
  import opened Query
  import opened Schema
  import opened Jwt

  const BadAdminCredentials := "Invalid credentials"
  const BadDriverCredentials := "Invalid email or password"

  /** A driver row without password_hash, password_salt and reset_token. */
  datatype SafeDriver = SafeDriver(driverId: string, info: DriverInfo, isActive: bool)

  /** What a successful driver login returns: the token and the safe row. */
  datatype DriverSession = DriverSession(token: Claims, driver: SafeDriver)

  /** `const { password_hash, password_salt, reset_token, ...safeData } = driver`. */
  function SafeData(d: Driver): (s: SafeDriver)
    ensures s.driverId == d.driverId && s.info == d.info && s.isActive == d.account.isActive
  {
    SafeDriver(d.driverId, d.info, d.account.isActive)
  }

  /** The secret columns never reach the response: rows that differ only in
      them give the same safe data. */
  lemma SafeDataHidesSecrets(d: Driver, hash: string, salt: Option<string>, reset: Option<string>)
    ensures SafeData(d.(account := d.account.(passwordHash := hash, passwordSalt := salt, resetToken := reset))) == SafeData(d)
  {
  }

  /** The active rows of a result set (`AND is_active = TRUE`). */
  function Active(ds: seq<Driver>): (r: seq<Driver>)
    ensures forall d :: d in r <==> d in ds && d.account.isActive
    decreases |ds|
  {
    if ds == [] then []
    else (if ds[0].account.isActive then [ds[0]] else []) + Active(ds[1..])
  }

  /** The filter keeps each active row as often as the result set holds it,
      and no other row. */
  lemma {:induction false} ActiveCount(ds: seq<Driver>, d: Driver)
    ensures multiset(Active(ds))[d] == if d.account.isActive then multiset(ds)[d] else 0
    decreases |ds|
  {
    if ds != [] {
      ActiveCount(ds[1..], d);
      assert ds == [ds[0]] + ds[1..];
    }
  }

  /** The filter distributes over concatenation, so active rows keep their
      order and `rows[0]` is the first active row. */
  lemma {:induction false} ActiveAppend(a: seq<Driver>, b: seq<Driver>)
    ensures Active(a + b) == Active(a) + Active(b)
    decreases |a|
  {
    if a == [] {
      assert a + b == b;
    } else {
      assert (a + b)[1..] == a[1..] + b;
      ActiveAppend(a[1..], b);
    }
  }

  /** adminLogin: the first admin with that email, if the password matches,
      gets a one-day token carrying only its id. */
  function AdminLogin(admins: seq<Admin>, email: string, password: string,
                      verify: (string, string) -> bool): (r: Response<Claims>)
    ensures r.Error? ==> r == Error(401, BadAdminCredentials)
    ensures r.Success? <==>
              var rows := Where(admins, AdminEmail, email);
              rows != [] && verify(password, rows[0].passwordHash)
    ensures r.Success? ==>
              && r.code == 200
              && r.data.role.None? && r.data.expiresIn == "1d"
              && exists a :: a in admins && a.email == email && a.adminId == r.data.id
                               && verify(password, a.passwordHash)
  {
    var rows := Where(admins, AdminEmail, email);
    if rows == [] then Error(401, BadAdminCredentials)
    else if !verify(password, rows[0].passwordHash) then Error(401, BadAdminCredentials)
    else Success(200, Claims(rows[0].adminId, None, "1d"))
  }

  /** driverLogin: the first active driver with that id, if the password
      matches, gets a thirty-day driver token and its row without secrets. */
  function DriverLogin(drivers: seq<Driver>, id: string, password: string,
                       verify: (string, string) -> bool): (r: Response<DriverSession>)
    ensures r.Error? ==> r == Error(401, BadDriverCredentials)
    ensures r.Success? <==>
              var rows := Active(Where(drivers, DriverKey, id));
              rows != [] && verify(password, rows[0].account.passwordHash)
    ensures r.Success? ==>
              && r.code == 200
              && r.data.token == Claims(id, Some("driver"), "30d")
              && exists d :: d in drivers && d.driverId == id && d.account.isActive
                               && verify(password, d.account.passwordHash)
                               && r.data.driver == SafeData(d)
  {
    var rows := Active(Where(drivers, DriverKey, id));
    if rows == [] then Error(401, BadDriverCredentials)
    else if !verify(password, rows[0].account.passwordHash) then Error(401, BadDriverCredentials)
    else
      var d := rows[0];
      Success(200, DriverSession(Claims(d.driverId, Some("driver"), "30d"), SafeData(d)))
  }

  /** An unknown id, an inactive driver and a wrong password are
      indistinguishable to the caller. */
  lemma DriverLoginFailuresAlike(drivers: seq<Driver>, id: string, password: string,
                                 verify: (string, string) -> bool)
    requires (forall d :: d in drivers && d.driverId == id ==> !d.account.isActive)
             || (forall d :: d in drivers ==> !verify(password, d.account.passwordHash))
    ensures DriverLogin(drivers, id, password, verify) == Error(401, BadDriverCredentials)
  {
    var rows := Active(Where(drivers, DriverKey, id));
    if rows != [] {
      assert rows[0] in rows;
    }
  }

  /** An unknown email and a wrong password are indistinguishable. */
  lemma AdminLoginFailuresAlike(admins: seq<Admin>, email: string, password: string,
                                verify: (string, string) -> bool)
    requires (forall a :: a in admins ==> a.email != email)
             || (forall a :: a in admins ==> !verify(password, a.passwordHash))
    ensures AdminLogin(admins, email, password, verify) == Error(401, BadAdminCredentials)
  {
    var rows := Where(admins, AdminEmail, email);
    if rows != [] {
      assert rows[0] in rows;
    }
  }
}
