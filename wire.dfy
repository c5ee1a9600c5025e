/** The message types the client session builds and consumes. They belong to
    the `state` and `genericsmrproto` packages of the system; only their
    fields are modelled here, not their byte encoding. */
module Wire {

  newtype uint8 = x: int | 0 <= x < 0x100
  newtype int32 = x: int | -0x8000_0000 <= x < 0x8000_0000
  newtype int64 = x: int | -0x8000_0000_0000_0000 <= x < 0x8000_0000_0000_0000

  const MinInt32: int32 := -0x8000_0000
  const MaxInt32: int32 := 0x7fff_ffff

  /** `state.Value`: the bytes stored under a key. */
  type Value = seq<uint8>

  /** `state.NIL()`: the empty value, sent with GET and SCAN and returned
      when a reply fails. */
  const Nil: Value := []

  /** `TRUE`, the byte a reply carries in its OK field on success. */
  const True: uint8 := 1

  /** `state.Operation`, restricted to the kinds the client issues. */
  datatype Operation = PUT | GET | SCAN

  /** `state.Command`: the operation kind, the key (`state.Key`, 64 bits)
      and the value. */
  datatype Command = Command(op: Operation, k: int64, v: Value)

  /** `genericsmrproto.Propose`: the envelope sent to a replica, tagged with
      the session's command id; the client always sends timestamp 0. */
  datatype Propose = Propose(commandId: int32, command: Command, timestamp: int64)

  /** What the reader of the submitter's link yields for one reply: a
      decoded `ProposeReplyTS` (its OK byte and value), or a frame that
      could not be decoded, which leaves the zeroed reply in place. */
  datatype ReplyFrame = Decoded(ok: uint8, value: Value) | Undecodable

  /** The test `reply.OK == TRUE`. An undecodable frame fails it, since
      the freshly allocated reply has OK = 0. */
  predicate IsOk(reply: ReplyFrame)
  {
    reply.Decoded? && reply.ok == True
  }
}
