/**
 * The interface of `jsonwebtoken` as the handlers use it. Signing and
 * verification are parameters of the handlers (functions of these types),
 * so the model fixes nothing about signatures, secrets or clocks.
 */
module Tokens {

  /** The payload the login handler signs: `{ userId: user.id }`. */
  datatype Claim = Claim(userId: nat)

  /** `jwt.verify` either returns the decoded payload or throws an error with a `name`. */
  datatype Verification = Verified(claim: Claim) | Rejected(errorName: string)

  /** The one error name the candidates handler turns into 401 "Invalid token". */
  const JsonWebTokenError := "JsonWebTokenError"

  /** The name `jwt.verify` gives the error it throws for a token past its `exp`. */
  const TokenExpiredError := "TokenExpiredError"

  /** The `expiresIn` option given to `jwt.sign`. */
  const Lifetime := "24h"
}
