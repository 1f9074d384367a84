/**
 * The dashboard component's state: the session list, the selected session
 * id, the text being typed and the loading flag. Each handler replaces a
 * field with the result of the corresponding pure rule. Backend calls are
 * not made here: their outcomes arrive as parameters.
 */
module LiveChat {
  import opened Wrappers
  import opened ChatTypes
  import opened SessionList
  import opened SendGuard
  import opened ConversationPane

  /** What the initial load produced: no business row, a (possibly null) list of session rows, or an exception. */
  datatype LoadOutcome = NoBusiness | Rows(rows: Option<seq<ChatSession>>) | LoadError

  class LiveChatState {
    var sessions: seq<ChatSession>
    var selectedSession: Option<string>
    var message: string
    var loading: bool

    constructor ()
      ensures sessions == [] && selectedSession == None && message == "" && loading
    {
      sessions := [];
      selectedSession := None;
      message := "";
      loading := true;
    }

    /**
     * The end of the initial load: a successful query replaces the list
     * wholesale (`sessions || []`), dropping whatever live events were applied
     * before it; no business row or an exception leaves the list as it was.
     * Loading ends in every case.
     */
    method ApplyLoad(outcome: LoadOutcome)
      modifies this`sessions, this`loading
      ensures !loading
      ensures outcome.Rows? && outcome.rows.Some? ==> sessions == outcome.rows.value
      ensures outcome.Rows? && outcome.rows.None? ==> sessions == []
      ensures !outcome.Rows? ==> sessions == old(sessions)
    {
      if outcome.Rows? {
        sessions := match outcome.rows
          case Some(rows) => rows
          case None => [];
      }
      loading := false;
    }

    /** A live "new session" event. */
    method OnSessionInsert(row: ChatSession)
      modifies this`sessions
      ensures sessions == SessionInserted(old(sessions), row)
      ensures |sessions| == |old(sessions)| + 1 && sessions[0] == row && sessions[1..] == old(sessions)
    {
      sessions := SessionInserted(sessions, row);
    }

    /** A live "new message" event. */
    method OnMessageInsert(ev: MessageInsertEvent)
      modifies this`sessions
      ensures sessions == MessageInserted(old(sessions), ev)
      ensures |sessions| == |old(sessions)|
      ensures forall i :: 0 <= i < |sessions| ==> sessions[i] == UpdatedSession(old(sessions)[i], ev)
    {
      sessions := MessageInserted(sessions, ev);
    }

    /** A click on a session card. */
    method SelectSession(id: string)
      modifies this`selectedSession
      ensures selectedSession == Some(id)
    {
      selectedSession := Some(id);
    }

    /** A keystroke in the input. */
    method EditMessage(text: string)
      modifies this`message
      ensures message == text
    {
      message := text;
    }

    /**
     * The send action. When the guard refuses, nothing is inserted and the
     * input keeps its text. Otherwise the insert is issued; the input is
     * cleared unless the insert call threw (an insert the backend rejects
     * without throwing still clears it).
     */
    method SendMessage(insertThrew: bool) returns (request: Option<InsertRequest>)
      modifies this`message
      ensures request == PlanSend(selectedSession, old(message))
      ensures request.None? ==> message == old(message)
      ensures request.Some? ==> request.value.content == old(message) && request.value.senderType == Business
      ensures request.Some? ==> message == (if insertThrew then old(message) else "")
    {
      request := PlanSend(selectedSession, message);
      if request.Some? && !insertThrew {
        message := "";
      }
    }

    /**
     * The conversation pane the component renders for the current state,
     * including the failure when the selected session has no message list.
     */
    function Displayed(): (p: PaneView)
      reads this
      ensures p.Placeholder? <==> !HasSelection(selectedSession)
      ensures p.RenderFailure? <==>
                (HasSelection(selectedSession) && FindSession(sessions, selectedSession.value).Some? &&
                 FindSession(sessions, selectedSession.value).value.messages.None?)
    {
      PaneAsWritten(sessions, selectedSession)
    }

    /** The corrected pane (a missing message list read as empty): it never fails to render. */
    function DisplayedCorrected(): (p: PaneView)
      reads this
      ensures !p.RenderFailure?
      ensures p.Placeholder? <==> !HasSelection(selectedSession)
      ensures Displayed().Thread? ==> p == Displayed()
    {
      Pane(sessions, selectedSession)
    }
  }
}
