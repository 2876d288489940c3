/** Password hashing (bcrypt) and token signing (jsonwebtoken) are foreign code. They are kept
    opaque: a configuration value carries them as functions, and the model relies only on the
    facts collected in `Sound`. */
module Crypto {
  import opened Base

  /** The text bcrypt produces from a password and a salt. */
  type Digest = string

  /** A signed token as it travels in the Authorization header. */
  type Token = string

  /** `hash(password, salt)` is bcrypt.hash, `compare(password, stored)` is bcrypt.compare,
      `sign(id)` is the token generator for a user id, and `verify(token)` is jwt.verify
      returning the id it decodes, or None where jwt.verify throws. */
  datatype Primitives = Primitives(
    hash: (string, nat) -> Digest,
    compare: (string, Digest) -> bool,
    sign: UserId -> Token,
    verify: Token -> Option<UserId>)

  /** The only facts the model assumes of the foreign code: a password matches its own hash,
      a token signed for an id verifies back to that id, and a signed token contains no
      space (JSON Web Tokens are base64url text joined by dots). */
  ghost predicate Sound(c: Primitives)
  {
    && (forall password, salt :: c.compare(password, c.hash(password, salt)))
    && (forall id: UserId :: c.verify(c.sign(id)) == Some(id))
    && (forall id: UserId :: ' ' !in c.sign(id))
  }
}
