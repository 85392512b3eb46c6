/**
 Conversation storage as its callers see it (fsm.go): one map from keys to conversations.
 */
module Conversations {
  import opened Json

  datatype StorageKey = StorageKey(chatID: int, userID: int, threadID: int)

  const NO_STATE := ""

  datatype Conversation = Conversation(state: string, data: Data)

  const EMPTY := Conversation(NO_STATE, map[])

  datatype Op =
    | SetState(key: StorageKey, state: string)
    | GetState(key: StorageKey)
    | SetData(key: StorageKey, data: Data)
    | GetData(key: StorageKey)
    | UpdateData(key: StorageKey, partial: Data)
    | Clear(key: StorageKey)

  datatype Reply = Done | Current(state: string) | Contents(data: Data) | Failed

  // --------------------------------------------------------------------------
  // The abstract storage

  function Look(m: map<StorageKey, Conversation>, key: StorageKey): Conversation {
    if key in m then m[key] else EMPTY
  }

  function Step(m: map<StorageKey, Conversation>, op: Op): (map<StorageKey, Conversation>, Reply) {
    var c := Look(m, op.key);
    match op
    case SetState(key, state) => (m[key := c.(state := state)], Done)
    case GetState(key) => (m, Current(c.state))
    case SetData(key, data) =>
      if Image(data).Some? then (m[key := c.(data := Image(data).value)], Done) else (m, Failed)
    case GetData(key) => (m, Contents(c.data))
    case UpdateData(key, partial) =>
      var image := Image(c.data + partial);
      if image.Some? then (m[key := c.(data := image.value)], Contents(image.value)) else (m, Failed)
    case Clear(key) => (m - {key}, Done)
  }

  /** What the abstract storage answers to a sequence of operations, and where it ends. */
  function Replies(m: map<StorageKey, Conversation>, ops: seq<Op>): (map<StorageKey, Conversation>, seq<Reply>)
    decreases |ops|
  {
    if ops == [] then (m, [])
    else
      var (m', reply) := Step(m, ops[0]);
      var (m'', replies) := Replies(m', ops[1..]);
      (m'', [reply] + replies)
  }
}
