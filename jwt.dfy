/** Signed tokens. Signing and verification belong to the jsonwebtoken
    library and are not modelled: a token is represented by the claims it
    carries, and what verifying a presented token string yields is given by
    the caller. */
module Jwt {
  import opened Common

  /** The payload of a token and the lifetime it was signed with. */
  datatype Claims = Claims(id: string, role: Option<string>, expiresIn: string)

  /** What `jwt.verify` does with a presented token: returns the claims, or
      throws (bad signature, expired, malformed) with a reason. */
  datatype Decoded = Verified(claims: Claims) | Rejected(reason: string)
}
