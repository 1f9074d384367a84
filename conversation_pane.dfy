/**
 * The right-hand pane of the dashboard: a placeholder while no session is
 * selected, otherwise the messages of the session the lookup finds.
 *
 * As written, the lookup `sessions.find(...)?.messages.map(...)` guards only
 * against a missing session, not against a session without a message list;
 * a session that arrived through the live "new session" event has no such
 * list until its first message, so selecting it makes rendering fail.
 * `PaneAsWritten` models that, and is what the component model renders;
 * `Pane` is the corrected rule, reading a missing list as empty the way the
 * new-message handler does.
 */
module ConversationPane {
  import opened Wrappers
  import opened ChatTypes
  import opened SessionList

  datatype PaneView = Placeholder | Thread(messages: seq<Message>) | RenderFailure

  /** The pane as the component renders it, including the failing property access. */
  function PaneAsWritten(sessions: seq<ChatSession>, selected: Option<string>): (p: PaneView)
    ensures p.Placeholder? <==> !HasSelection(selected)
    ensures p.RenderFailure? <==>
              (HasSelection(selected) &&
               exists i :: 0 <= i < |sessions| && sessions[i].id == selected.value && sessions[i].messages.None? &&
                           forall j :: 0 <= j < i ==> sessions[j].id != selected.value)
    ensures p.Thread? ==> p == Pane(sessions, selected)
  {
    if !HasSelection(selected) then Placeholder
    else match FindSession(sessions, selected.value)
      case None => Thread([])
      case Some(s) =>
        match s.messages
        case None => RenderFailure
        case Some(ms) => Thread(ms)
  }

  /** The pane with a missing message list read as empty. */
  function Pane(sessions: seq<ChatSession>, selected: Option<string>): (p: PaneView)
    ensures !p.RenderFailure?
    ensures p.Placeholder? <==> !HasSelection(selected)
    ensures HasSelection(selected) && (forall i :: 0 <= i < |sessions| ==> sessions[i].id != selected.value) ==>
              p == Thread([])
    ensures HasSelection(selected) && FindSession(sessions, selected.value).Some? ==>
              p == Thread(MessagesOf(FindSession(sessions, selected.value).value))
  {
    if !HasSelection(selected) then Placeholder
    else match FindSession(sessions, selected.value)
      case None => Thread([])
      case Some(s) => Thread(MessagesOf(s))
  }

  /**
   * The counterexample: put a fresh session row (no message list) in front of
   * any list and select it; the pane as written fails, the corrected pane
   * shows an empty conversation.
   */
  lemma FreshSessionBreaksPaneAsWritten(prev: seq<ChatSession>, row: ChatSession)
    requires row.messages.None? && row.id != ""
    ensures PaneAsWritten(SessionInserted(prev, row), Some(row.id)) == RenderFailure
    ensures Pane(SessionInserted(prev, row), Some(row.id)) == Thread([])
  {
  }

  /** Where every session carries a message list (as every loaded session does), the two agree. */
  lemma PaneAgreesWhenListsPresent(sessions: seq<ChatSession>, selected: Option<string>)
    requires forall i :: 0 <= i < |sessions| ==> sessions[i].messages.Some?
    ensures PaneAsWritten(sessions, selected) == Pane(sessions, selected)
  {
  }

  /** The first message for a session ends the failure window: the pane as written then shows it. */
  lemma MessageEndsRenderFailure(prev: seq<ChatSession>, ev: MessageInsertEvent)
    requires ev.sessionId != ""
    ensures FindSession(prev, ev.sessionId).Some? ==>
              PaneAsWritten(MessageInserted(prev, ev), Some(ev.sessionId)) ==
              Thread(MessagesOf(FindSession(prev, ev.sessionId).value) + [ev.row])
  {
    FindAfterMessageInserted(prev, ev, ev.sessionId);
  }

  /**
   * After a new-message event, the pane of the selected session shows its old
   * messages followed by the new one when the event names it and it is in
   * the list, and is unchanged otherwise (the event names another session,
   * or names one that is not in the list). The two "unchanged" cases hold for
   * the pane as written and for the corrected pane.
   */
  lemma {:induction false} PaneAfterMessage(prev: seq<ChatSession>, ev: MessageInsertEvent, selected: Option<string>)
    ensures HasSelection(selected) && selected.value == ev.sessionId && FindSession(prev, ev.sessionId).Some? ==>
              Pane(MessageInserted(prev, ev), selected) == Thread(Pane(prev, selected).messages + [ev.row])
    ensures HasSelection(selected) && selected.value == ev.sessionId && FindSession(prev, ev.sessionId).None? ==>
              && Pane(MessageInserted(prev, ev), selected) == Pane(prev, selected)
              && PaneAsWritten(MessageInserted(prev, ev), selected) == PaneAsWritten(prev, selected)
    ensures !(HasSelection(selected) && selected.value == ev.sessionId) ==>
              && Pane(MessageInserted(prev, ev), selected) == Pane(prev, selected)
              && PaneAsWritten(MessageInserted(prev, ev), selected) == PaneAsWritten(prev, selected)
  {
    if HasSelection(selected) && FindSession(prev, selected.value).None? && selected.value == ev.sessionId {
      MessageForUnknownSessionDropped(prev, ev);
    }
    if HasSelection(selected) {
      FindAfterMessageInserted(prev, ev, selected.value);
    }
  }
}
