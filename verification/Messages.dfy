/** Messages, their subscribers, and what dispatching them does to the outside world. */
module Messages {
  import opened Chains

  const MSG_MAX_MSG_IDS: nat := 26
  const MSG_ID_NOMESSAGE: int := -1

  type Handler = int

  datatype Owner = OwnerCaller | OwnerMQ

  datatype Msg = Msg(id: int, context: Addr, owner: Owner)

  /** What the loop does to the outside world. */
  datatype Event =
    | Call(handler: Handler, id: int, context: Addr)
    | FreeContext(context: Addr)
    | FreeMessage(node: Addr)

  /** A message is passed to each of these handlers in turn. */
  function Calls(msg: Msg, hs: seq<Handler>): seq<Event> {
    seq(|hs|, i requires 0 <= i < |hs| => Call(hs[i], msg.id, msg.context))
  }

  /** A context is freed unless its caller keeps it or there is none. */
  function Frees(msg: Msg): seq<Event> {
    if msg.owner != OwnerCaller && msg.context != NULL then [FreeContext(msg.context)] else []
  }
}
