/** createAdmin: the admin id is the local part of the email, the password is
    stored as the hash and salt hashPassword returns (`hashPassword` stands
    for the bcrypt helper, whose salt is random), and one admins row is
    inserted. */
module AdminController {
  import opened Common
  import opened Query
  import opened Schema
  import opened Text
  import opened Store

  datatype AdminBody = AdminBody(
    firstname: string, lastname: string, email: string, phoneNumber: string, password: string)

  /** What hashPassword returns. */
  datatype Credential = Credential(hash: string, salt: string)

  /** `email.split('@')[0]`. */
  function AdminId(email: string): (id: string)
    ensures '@' !in id
    ensures |id| <= |email| && id == email[..|id|]
    ensures |id| < |email| <==> '@' in email
    ensures |id| < |email| ==> email[|id|] == '@'
  {
    AdminIdIsPrefix(email);
    Split(email, '@')[0]
  }

  lemma {:induction false} AdminIdIsPrefix(email: string)
    ensures var id := Split(email, '@')[0];
            && |id| <= |email| && id == email[..|id|]
            && (|id| < |email| <==> '@' in email)
            && (|id| < |email| ==> email[|id|] == '@')
    decreases |email|
  {
    if email != [] && email[0] != '@' {
      AdminIdIsPrefix(email[1..]);
    }
  }

  /** Emails with the same local part map to the same admin id. */
  lemma AdminIdOfLocalPart(local: string, domain: string)
    requires '@' !in local
    ensures AdminId(local + "@" + domain) == local
  {
    SplitAfter(local, '@', domain);
  }

  /** The row createAdmin inserts. */
  function AdminRow(body: AdminBody, cred: Credential): (a: Admin)
    ensures a.adminId == AdminId(body.email)
    ensures a.firstname == body.firstname && a.lastname == body.lastname
    ensures a.email == body.email && a.phoneNumber == body.phoneNumber
    ensures a.passwordHash == cred.hash && a.passwordSalt == cred.salt
  {
    Admin(AdminId(body.email), body.firstname, body.lastname, body.email, body.phoneNumber,
          cred.hash, cred.salt)
  }

  /** createAdmin. A second admin whose email has the same local part
      collides on the primary key; the driver's error reaches the error
      handler as a 500. */
  method CreateAdmin(db: Database, body: AdminBody, hashPassword: string -> Credential)
    returns (r: Response<string>)
    modifies db`admins
    ensures old(db.Valid()) ==> db.Valid()
    ensures r.Success? <==> Where(old(db.admins), AdminKey, AdminId(body.email)) == []
    ensures r.Success? ==> r == Success(201, AdminId(body.email))
    ensures r.Success? ==> db.admins == old(db.admins) + [AdminRow(body, hashPassword(body.password))]
    ensures r.Error? ==> r == Error(500, DuplicateKey) && db.admins == old(db.admins)
  {
    var cred := hashPassword(body.password);
    var adminId := AdminId(body.email);
    var ok := db.InsertAdmin(AdminRow(body, cred));
    if ok {
      r := Success(201, adminId);
    } else {
      r := Error(500, DuplicateKey);
    }
  }
}
