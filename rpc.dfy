/** The gRPC surface the delivery layer sees: request metadata, the
    request-scoped context with its values, status errors, and the 32-bit
    integers of the protobuf messages. */
module Rpc {
  import opened Wrappers

  /** Incoming metadata: lower-case keys to their values, in arrival order. */
  type Metadata = map<string, seq<string>>

  /** A request context: the values set with context.WithValue (all of them
      strings here) and the incoming metadata, if the transport attached any. */
  datatype Context = Context(values: map<string, string>, metadata: Option<Metadata>)

  /** The context keys the gate sets and the user handlers read. */
  const UserIdKey: string := "userID"
  const EmailKey: string := "email"

  /** `ctx.Value(key).(string)` with the comma-ok form. */
  function Value(ctx: Context, key: string): (v: Option<string>)
  {
    Lookup(ctx.values, key)
  }

  /** `md.Get(key)`: the values under the key, none when it is absent. */
  function Get(md: Metadata, key: string): (values: seq<string>)
  {
    if key in md then md[key] else []
  }

  datatype Code = Unauthenticated | InvalidArgument | NotFound | PermissionDenied | Internal

  /** status.Error(code, message) */
  datatype Status = Status(code: Code, message: string)

  const TwoTo31: int := 0x8000_0000
  const TwoTo32: int := 0x1_0000_0000

  newtype int32 = x: int | -0x8000_0000 <= x < 0x8000_0000

  /** Go's `int32(x)`: keeps the low 32 bits, read as two's complement. */
  function WrapInt32(x: int): (r: int32)
    ensures (r as int - x) % TwoTo32 == 0
    ensures -TwoTo31 <= x < TwoTo31 ==> r as int == x
  {
    var low := x % TwoTo32;
    if low >= TwoTo31 then (low - TwoTo32) as int32 else low as int32
  }
}
