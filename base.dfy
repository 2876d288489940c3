/** Values shared by every part of the model: optional values, handler outcomes and user ids. */
module Base {

  /** A value that may be absent (`undefined` or `null` in the source). */
  datatype Option<+T> = None | Some(value: T)

  /** What an HTTP handler answers: a success status with its JSON body, or the status it
      set with `res.status(...)` before throwing, and the thrown error's message. */
  datatype Result<+T> = Ok(status: nat, value: T) | Err(status: nat, message: string)

  /** What a plain async function does: return a value or throw an Error with a message. */
  datatype Outcome<+T> = Returned(value: T) | Thrown(message: string)

  /** A user's database id (`_id`). The database hands out a fresh one per created user. */
  type UserId = nat

  /** JavaScript truthiness of an optional string field of a request: an absent field and
      the empty string are both falsy. */
  predicate Present(s: Option<string>)
  {
    s.Some? && s.value != ""
  }
}
