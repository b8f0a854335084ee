/** Values the REST bindings exchange with the chat platform: snowflake
    identifiers, the parts of a guild member the client looks at, and the
    error / result shapes of a request. */
module Discord {

  /** Largest value of Go's `uint` on the 64-bit platforms the library targets. */
  const MaxUint: int := 0xFFFF_FFFF_FFFF_FFFF

  /** Go's `uint`. */
  type Uint = x: int | 0 <= x <= MaxUint

  /** A 64-bit snowflake identifier; ordered by creation time. */
  type Snowflake = x: int | 0 <= x <= MaxUint

  datatype User = User(id: Snowflake)

  /** A guild member; the client only ever inspects `user.id`. */
  datatype Member = Member(user: User)

  /** Whatever error the request executor reports (transport or decoding). */
  datatype Error = Error(message: string)

  datatype Option<T> = None | Some(value: T)

  /** The outcome of one request: a decoded value or the executor's error. */
  datatype Result<T> = Success(value: T) | Failure(error: Error)

  function Min(a: int, b: int): int
  {
    if a <= b then a else b
  }
}
