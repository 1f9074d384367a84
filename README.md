# Live chat session list — a Dafny model

This project models the in-memory state of the operator dashboard's live-chat
view (`src/components/LiveChat.tsx`): the list of chat sessions, each with its
messages, and the rules that change it when the backend reports a new session
or a new message, the guard of the operator's send action, and the lookup
that picks the conversation to display.

Modules:

- `Wrappers` — `Option`, standing for values that may be `null`/`undefined`.
- `ChatTypes` — `Message`, `ChatSession` (whose message list may be missing),
  the new-message event payload, and JavaScript truthiness of the selected id.
- `SessionList` — the two merge rules as pure functions (prepend; map with
  append), the `find` lookup, and lemmas about length, order, "nothing else
  changes", dropped messages and the absence of duplicate suppression.
- `SendGuard` — JavaScript `trim` (ECMAScript WhiteSpace and LineTerminator
  characters, sections 12.2 and 12.3 of ECMA-262), the send guard and the
  insert it issues.
- `ConversationPane` — what the right-hand pane shows, as written and
  corrected (see Findings).
- `LiveChat` — the component state as a class whose handler methods assign
  their fields from the pure rules; backend outcomes are parameters.

The code suppresses no duplicates (a repeated session is prepended again and
a repeated message appended again), does not check whether a session is
closed before sending, and drops a message for a session not in the list;
the model does the same.

## Model

| member | source | states |
|---|---|---|
| ChatTypes.MessagesOf | src/components/LiveChat.tsx:88 | the empty-list fallback of the new-message handler: a missing message list reads as empty, a present one as itself |
| ChatTypes.HasSelection | src/components/LiveChat.tsx:103 | the selected id is falsy exactly when it is null or the empty string |
| SessionList.SessionInserted | src/components/LiveChat.tsx:69-70 | the new row is at index 0, the list grows by one, and the old list follows unchanged and in order |
| SessionList.SessionInsertedNoDedup | src/components/LiveChat.tsx:70 | a repeated insert is not suppressed: the length and the number of sessions with that id both grow by exactly one |
| SessionList.FindAfterSessionInserted | src/components/LiveChat.tsx:70 | after a new-session event a lookup of its id finds the new row, hiding any older session with the same id; lookups of other ids are unaffected |
| SessionList.AppendMessage | src/components/LiveChat.tsx:86-89 | id, visitor and status are kept; the message list becomes present and is the old list (missing read as empty) with the new message at the end |
| SessionList.UpdatedSession | src/components/LiveChat.tsx:84-91 | a session with another id is returned unchanged; the matching session gains the message at the end; ids, visitor and status never change |
| SessionList.MessageInserted | src/components/LiveChat.tsx:83-92 | the new-message handler is a map: same length, and each position is the callback applied to the session that was there |
| SessionList.MessageInsertedKeepsOrder | src/components/LiveChat.tsx:83-92 | the number of sessions and the order of their ids, visitors and statuses are kept |
| SessionList.MessageInsertedPerSession | src/components/LiveChat.tsx:85-90 | a session whose id differs from the event's is identical to before; a matching one gets exactly the new message appended after its earlier messages in order |
| SessionList.MessageForUnknownSessionDropped | src/components/LiveChat.tsx:83-92 | when no session has the event's id the list is unchanged, so the message is dropped |
| SessionList.TotalMessagesAfterMessage | src/components/LiveChat.tsx:83-92 | the total message count grows by exactly the number of sessions carrying the event's id |
| SessionList.MessageInsertedTwice | src/components/LiveChat.tsx:86-88 | a repeated message event is not suppressed: the message ends up twice at the end of the matching session |
| SessionList.FindAfterMessageInserted | src/components/LiveChat.tsx:83-92 | the session a lookup finds after a new-message event is the one it found before, updated by the event; an absent id stays absent |
| SessionList.FindSession | src/components/LiveChat.tsx:148-149 | the result is the first session in the list with the id, and none exactly when no session has it |
| SendGuard.TrimStart | src/components/LiveChat.tsx:103 | leading trim yields a suffix after an all-whitespace prefix, starting with a non-whitespace character |
| SendGuard.TrimEnd | src/components/LiveChat.tsx:103 | trailing trim yields a prefix before an all-whitespace suffix, ending with a non-whitespace character |
| SendGuard.Trim | src/components/LiveChat.tsx:103 | `message.trim()` is the slice of the text between an all-whitespace prefix and an all-whitespace suffix, and neither of its ends is whitespace |
| SendGuard.TrimEmptyIff | src/components/LiveChat.tsx:103 | the trimmed text is empty exactly when every character is whitespace |
| SendGuard.CanSend | src/components/LiveChat.tsx:103 | sending passes the guard iff a (non-empty) session id is selected and the text has a non-whitespace character |
| SendGuard.PlanSend | src/components/LiveChat.tsx:103-110 | no insert iff nothing is selected or the text is blank; otherwise the insert carries the selected session id, the untrimmed text and sender type business |
| ConversationPane.PaneAsWritten | src/components/LiveChat.tsx:145-161 | placeholder iff no selection; rendering fails iff the first session with the selected id has no message list; a conversation it shows is the one the corrected pane shows (the first match's messages, or none for an unknown id) |
| ConversationPane.Pane | src/components/LiveChat.tsx:145-161 | never fails; placeholder iff no selection; an empty conversation for an unknown id; otherwise the messages of the first session with the selected id |
| ConversationPane.FreshSessionBreaksPaneAsWritten | src/components/LiveChat.tsx:148-150 | selecting a session that arrived through the new-session event makes the as-written pane fail, while the corrected pane shows an empty conversation |
| ConversationPane.PaneAgreesWhenListsPresent | src/components/LiveChat.tsx:148-150 | when every session has a message list the as-written and corrected panes agree |
| ConversationPane.MessageEndsRenderFailure | src/components/LiveChat.tsx:148-150 | after the first message for a listed session, the as-written pane shows that session's messages with the new one last |
| ConversationPane.PaneAfterMessage | src/components/LiveChat.tsx:148-161 | when the event names the selected session and that session is in the list, the corrected pane gains exactly the new message at the end (the rendered pane: see MessageEndsRenderFailure); when the event names another session or one not in the list, both the rendered pane and the corrected pane are unchanged |
| LiveChat.LiveChatState.constructor | src/components/LiveChat.tsx:22-25 | the component starts with no sessions, no selection, empty input and loading |
| LiveChat.LiveChatState.ApplyLoad | src/components/LiveChat.tsx:58-63 | a successful load replaces the list (null read as empty); no business or an exception keeps it; loading ends in every case |
| LiveChat.LiveChatState.OnSessionInsert | src/components/LiveChat.tsx:69-71 | the list becomes the new row followed by the old list |
| LiveChat.LiveChatState.OnMessageInsert | src/components/LiveChat.tsx:82-93 | the list becomes the old list with the callback applied to each session |
| LiveChat.LiveChatState.SelectSession | src/components/LiveChat.tsx:131 | the clicked session's id becomes the selection |
| LiveChat.LiveChatState.EditMessage | src/components/LiveChat.tsx:167 | the input holds the typed text |
| LiveChat.LiveChatState.SendMessage | src/components/LiveChat.tsx:101-115 | a refused send issues nothing and keeps the input; an accepted one issues the business insert and clears the input unless the insert threw |
| LiveChat.LiveChatState.Displayed | src/components/LiveChat.tsx:145-161 | the pane the component renders: the placeholder iff nothing is selected, and a render failure iff the first session with the selected id has no message list |
| LiveChat.LiveChatState.DisplayedCorrected | src/components/LiveChat.tsx:145-161 | corrected variant (see Findings): never fails to render, the placeholder iff nothing is selected, and equal to the rendered pane whenever that shows a conversation |

## Left out

- Backend queries, the insert and the channel subscriptions (src/components/LiveChat.tsx:35-56, 67-72, 80-94, 106-110) are network calls; only their outcomes enter the model, as parameters (`LoadOutcome`, the event payloads, `insertThrew`).
- The `created_at` descending order of the initial load is done by the database query, not by this code.
- The subscriptions are not filtered by business: whatever rows the backend delivers are merged. The model takes the events as given.
- The unsubscribe functions the subscribe helpers return are discarded by the effect at lines 27-31, so the channels are never closed; subscription lifetime is not modelled.
- Concurrency between the initial load and the live events, and between an in-flight send and further typing, is not modelled: events are applied one at a time. `ApplyLoad` shows that a load landing after live events replaces them.
- The appended message row also carries its `session_id` column; the model keeps that id in the event (`MessageInsertEvent.sessionId`) rather than in `Message`.
- Error logging to the console and the `Loading...` and JSX rendering are presentation; only the choice of what the conversation pane shows is modelled.
- src/pages/AuthPage.tsx, src/components/WidgetSettings.tsx, src/screens/Options/Options.tsx, src/pages/Dashboard.tsx, src/App.tsx and src/components/PrivateRoute.tsx are sign-in, settings forms, a static mock-up, tabs and routing, with no state rule of the session list.

## Findings

| source | as written | input that shows it | evidently intended | confidence | as-written member | corrected member |
|---|---|---|---|---|---|---|
| src/components/LiveChat.tsx:148-150 | `find(...)?.messages.map(...)` guards only against a missing session; `.map` on a session without a message list throws during rendering | a session row delivered by the new-session event (line 70) carries no nested message list; select it before any message for it arrives | a missing list is shown as an empty conversation, the way line 88 reads it | medium, not executed (the table schema is not part of this model) | ConversationPane.FreshSessionBreaksPaneAsWritten | ConversationPane.Pane |
