/** Chat messages as the conversation state holds them. */
module ChatMessage {
  import opened Support
  import Json

  datatype Role = User | Assistant | System | Tool

  /**
   `turn` is the assistant turn projection (see `Turn`); `extras` stands for the fields no
   operation of this model reads: model, tool call id, transcript reference, branches and
   follow-up suggestions.
   */
  datatype Message = Message(
    id: string,
    role: Role,
    content: string,
    timestamp: int,
    context: Option<string>,
    thinking: Option<string>,
    metadata: Option<Metadata>,
    turn: Turn,
    summaryRef: Option<Json.Value>,
    extras: Json.Value)

  datatype Metadata = Metadata(
    kind: string,
    originalCount: Option<nat>,
    compactedAt: Option<int>,
    originalMessages: Snapshots,
    originalUserCount: Option<nat>)

  /** The messages an anchor replaced, when it kept them. */
  datatype Snapshots = NoSnapshots | Snapshots(messages: seq<Message>)

  /** A turn is arbitrary JSON; an object is split into the two lists the code updates and the rest. */
  datatype Turn =
    | NoTurn
    | OtherJson(value: Json.Value)
    | TurnObject(toolRounds: Slot<Round>, pendingSummaries: Slot<Pending>, rest: seq<Json.Field>)

  /** An object entry that should hold an array: missing, something else, or the array. */
  datatype Slot<T> = Missing | NotArray(value: Json.Value) | Items(items: seq<T>)

  /** A tool round. `id` is its string id; an item that is no object, or has no string id, has none. */
  datatype Round = Round(
    id: Option<string>,
    summary: Option<Json.Value>,
    summaryMetadata: Option<Json.Value>,
    rest: Json.Value)

  /** A pending round summary, with the same reading of `roundId`. */
  datatype Pending = Pending(
    roundId: Option<string>,
    text: Json.Value,
    metadata: Option<Json.Value>,
    rest: Json.Value)
}
