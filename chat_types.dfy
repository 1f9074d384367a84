/**
 * The records the operator dashboard keeps in memory: chat sessions, each
 * with its messages, and the payload of a "new message" event.
 */
module ChatTypes {
  import opened Wrappers

  datatype SenderType = Business | Visitor

  datatype Status = Active | Closed

  /** One chat line as the dashboard holds it. */
  datatype Message = Message(id: string, content: string, senderType: SenderType, createdAt: string)

  /**
   * One visitor conversation. `messages` is `None` for a row that arrived
   * through the live "new session" event: such a row is the bare table row
   * and has no nested message list.
   */
  datatype ChatSession = ChatSession(id: string, visitorId: string, status: Status, messages: Option<seq<Message>>)

  /** A "new message" event: the inserted row and the session it names. */
  datatype MessageInsertEvent = MessageInsertEvent(sessionId: string, row: Message)

  /** The messages of a session, a missing list read as empty (`session.messages || []`). */
  function MessagesOf(s: ChatSession): (ms: seq<Message>)
    ensures s.messages.None? ==> ms == []
    ensures s.messages.Some? ==> ms == s.messages.value
  {
    match s.messages
    case Some(list) => list
    case None => []
  }

  /** JavaScript truthiness of the selected-session id (`string | null`): null and "" are falsy. */
  predicate HasSelection(selected: Option<string>): (ok: bool)
    ensures !ok <==> selected == None || selected == Some("")
  {
    selected.Some? && selected.value != ""
  }
}
