/** The observer event and its wire form. */
module Events {
  import opened Bytes
  import opened Decimal
  import opened Json

  datatype Event = Event(
    number: nat,
    timestamp: bytes,
    kind: bytes,
    agentIndex: Option<nat>,
    channelId: Option<bytes>,
    sessionId: Option<bytes>,
    turnId: Option<bytes>,
    startedAt: Option<bytes>,
    payload: Json)

  function Field(name: string, value: Json): Slot {
    Slot(Some(Ascii(name)), value)
  }

  function OptNumber(n: Option<nat>): Json {
    match n
    case None => Null
    case Some(k) => Number(Digits(k))
  }

  function OptText(t: Option<bytes>): Json {
    match t
    case None => Null
    case Some(s) => Str(s)
  }

  /** Every field but the payload, in declaration order; `startedAt` is skipped when absent. */
  function Envelope(e: Event): seq<Slot> {
    [ Field("seq", Number(Digits(e.number))),
      Field("timestamp", Str(e.timestamp)),
      Field("kind", Str(e.kind)),
      Field("agentIndex", OptNumber(e.agentIndex)),
      Field("channelId", OptText(e.channelId)),
      Field("sessionId", OptText(e.sessionId)),
      Field("turnId", OptText(e.turnId)) ]
    + (if e.startedAt.Some? then [Field("startedAt", Str(e.startedAt.value))] else [])
  }

  function EventJson(e: Event): Json {
    Obj(Envelope(e) + [Field("payload", e.payload)])
  }

  /** `serialized_len`. */
  function SerializedLen(e: Event): nat {
    |Serialize(EventJson(e))|
  }
}
