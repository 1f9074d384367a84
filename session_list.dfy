/**
 * The merge rules the dashboard applies to its in-memory session list when
 * a live event arrives: a new session is put in front, a new message is
 * appended to every session whose id it names. Neither rule suppresses
 * duplicates, and a message for a session that is not in the list is dropped.
 */
module SessionList {
  import opened Wrappers
  import opened ChatTypes

  /** The "new session" handler: `[payload.new, ...prev]`. */
  function SessionInserted(prev: seq<ChatSession>, row: ChatSession): (r: seq<ChatSession>)
    ensures |r| == |prev| + 1
    ensures r[0] == row
    ensures r[1..] == prev
  {
    [row] + prev
  }

  /** `{...session, messages: [...(session.messages || []), m]}` */
  function AppendMessage(s: ChatSession, m: Message): (r: ChatSession)
    ensures r.id == s.id && r.visitorId == s.visitorId && r.status == s.status
    ensures r.messages.Some?
    ensures MessagesOf(r) == MessagesOf(s) + [m]
  {
    s.(messages := Some(MessagesOf(s) + [m]))
  }

  /** The callback mapped over the list by the "new message" handler. */
  function UpdatedSession(s: ChatSession, ev: MessageInsertEvent): (r: ChatSession)
    ensures r.id == s.id && r.visitorId == s.visitorId && r.status == s.status
    ensures s.id != ev.sessionId ==> r == s
    ensures s.id == ev.sessionId ==> r.messages.Some? && MessagesOf(r) == MessagesOf(s) + [ev.row]
  {
    if s.id == ev.sessionId then AppendMessage(s, ev.row) else s
  }

  /** The "new message" handler: `prev.map(...)`. */
  function MessageInserted(prev: seq<ChatSession>, ev: MessageInsertEvent): (r: seq<ChatSession>)
    ensures |r| == |prev|
    ensures forall i :: 0 <= i < |prev| ==> r[i] == UpdatedSession(prev[i], ev)
    decreases |prev|
  {
    if prev == [] then []
    else [UpdatedSession(prev[0], ev)] + MessageInserted(prev[1..], ev)
  }

  /** `sessions.find((s) => s.id === id)`: the first session with that id. */
  function FindSession(sessions: seq<ChatSession>, id: string): (r: Option<ChatSession>)
    ensures r.None? <==> forall i :: 0 <= i < |sessions| ==> sessions[i].id != id
    ensures r.Some? ==> r.value.id == id
    ensures r.Some? ==> exists k :: 0 <= k < |sessions| && sessions[k] == r.value &&
                                   forall j :: 0 <= j < k ==> sessions[j].id != id
    decreases |sessions|
  {
    if sessions == [] then None
    else if sessions[0].id == id then Some(sessions[0])
    else
      var r := FindSession(sessions[1..], id);
      assert forall j :: 1 <= j < |sessions| ==> sessions[j] == sessions[1..][j - 1];
      r
  }

  /** How many sessions in the list carry the given id. */
  function CountWithId(sessions: seq<ChatSession>, id: string): nat
    decreases |sessions|
  {
    if sessions == [] then 0
    else (if sessions[0].id == id then 1 else 0) + CountWithId(sessions[1..], id)
  }

  /** The number of messages held over all sessions of the list. */
  function TotalMessages(sessions: seq<ChatSession>): nat
    decreases |sessions|
  {
    if sessions == [] then 0
    else |MessagesOf(sessions[0])| + TotalMessages(sessions[1..])
  }

  // ---------------------------------------------------------------------------
  // New-session event
  // ---------------------------------------------------------------------------

  /**
   * A repeated insert is not suppressed: the list grows by one and the id
   * occurs once more than before, whether or not it was already present.
   */
  lemma SessionInsertedNoDedup(prev: seq<ChatSession>, row: ChatSession)
    ensures |SessionInserted(prev, row)| == |prev| + 1
    ensures CountWithId(SessionInserted(prev, row), row.id) == CountWithId(prev, row.id) + 1
  {
  }

  /**
   * After a new-session event a lookup of the new id finds the new row, even
   * when an older session with that id is still in the list behind it; a
   * lookup of any other id finds what it found before.
   */
  lemma FindAfterSessionInserted(prev: seq<ChatSession>, row: ChatSession, id: string)
    ensures id == row.id ==> FindSession(SessionInserted(prev, row), id) == Some(row)
    ensures id != row.id ==> FindSession(SessionInserted(prev, row), id) == FindSession(prev, id)
  {
  }

  // ---------------------------------------------------------------------------
  // New-message event
  // ---------------------------------------------------------------------------

  /** The session list keeps its length, its order of ids and every session's other fields. */
  lemma MessageInsertedKeepsOrder(prev: seq<ChatSession>, ev: MessageInsertEvent)
    ensures |MessageInserted(prev, ev)| == |prev|
    ensures forall i :: 0 <= i < |prev| ==>
              && MessageInserted(prev, ev)[i].id == prev[i].id
              && MessageInserted(prev, ev)[i].visitorId == prev[i].visitorId
              && MessageInserted(prev, ev)[i].status == prev[i].status
  {
  }

  /**
   * Every session whose id is not the event's session id is untouched; every
   * session whose id is the event's gets the new message at the end of its
   * (possibly missing) message list, the earlier messages in their order.
   */
  lemma MessageInsertedPerSession(prev: seq<ChatSession>, ev: MessageInsertEvent, i: nat)
    requires i < |prev|
    ensures prev[i].id != ev.sessionId ==> MessageInserted(prev, ev)[i] == prev[i]
    ensures prev[i].id == ev.sessionId ==>
              && MessageInserted(prev, ev)[i].messages.Some?
              && MessagesOf(MessageInserted(prev, ev)[i]) == MessagesOf(prev[i]) + [ev.row]
  {
  }

  /** A message naming no session in the list changes nothing: it is dropped, not buffered. */
  lemma MessageForUnknownSessionDropped(prev: seq<ChatSession>, ev: MessageInsertEvent)
    requires forall i :: 0 <= i < |prev| ==> prev[i].id != ev.sessionId
    ensures MessageInserted(prev, ev) == prev
  {
  }

  /**
   * The message total grows by exactly the number of sessions carrying the
   * event's id: one for a unique id, none for an unknown one, one per copy
   * when a session was inserted twice.
   */
  lemma {:induction false} TotalMessagesAfterMessage(prev: seq<ChatSession>, ev: MessageInsertEvent)
    ensures TotalMessages(MessageInserted(prev, ev)) == TotalMessages(prev) + CountWithId(prev, ev.sessionId)
    decreases |prev|
  {
    if prev != [] {
      var r := MessageInserted(prev, ev);
      assert r[1..] == MessageInserted(prev[1..], ev);
      TotalMessagesAfterMessage(prev[1..], ev);
    }
  }

  /**
   * A repeated message event is not suppressed: applying the same event twice
   * leaves the message twice at the end of every matching session.
   */
  lemma MessageInsertedTwice(prev: seq<ChatSession>, ev: MessageInsertEvent, i: nat)
    requires i < |prev| && prev[i].id == ev.sessionId
    ensures MessagesOf(MessageInserted(MessageInserted(prev, ev), ev)[i]) == MessagesOf(prev[i]) + [ev.row, ev.row]
  {
    var once := MessageInserted(prev, ev);
    assert MessagesOf(once[i]) == MessagesOf(prev[i]) + [ev.row];
    assert MessagesOf(MessageInserted(once, ev)[i]) == MessagesOf(once[i]) + [ev.row];
  }

  /**
   * The session a lookup finds after a new-message event is the session it
   * found before, updated by the event: the displayed conversation gains the
   * new message exactly when it is the one the event names.
   */
  lemma {:induction false} FindAfterMessageInserted(prev: seq<ChatSession>, ev: MessageInsertEvent, id: string)
    ensures FindSession(prev, id).None? ==> FindSession(MessageInserted(prev, ev), id).None?
    ensures FindSession(prev, id).Some? ==>
              FindSession(MessageInserted(prev, ev), id) == Some(UpdatedSession(FindSession(prev, id).value, ev))
    decreases |prev|
  {
    if prev != [] {
      var r := MessageInserted(prev, ev);
      assert r[0] == UpdatedSession(prev[0], ev);
      assert r[1..] == MessageInserted(prev[1..], ev);
      if prev[0].id != id {
        FindAfterMessageInserted(prev[1..], ev, id);
      }
    }
  }
}
