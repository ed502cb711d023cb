# websocket-chat: the chat client's state machine in Dafny

This project models the browser side of a one-room real-time chat. With the
React hooks and markup stripped away, the client component in
`frontend/src/App.jsx` is one state record:
`{userName, showNamePopup, inputName, typers, messages, text}`. Every handler
is a transition from one such record to the next, and some also send events to
the relay server:

- the server's `chatMessage`, `typing` and `stopTyping` events update the
  message log and the list of peers shown as typing;
- submitting the name form joins the room (`joinRoom`) and seeds the log with
  a welcome message from `System`;
- the send button, or Enter without Shift in the message box, appends the
  user's message to the local log, sends it as `chatMessage`, and clears the
  box.

Files:

- `text.dfy` (module `Text`): JavaScript's `String.prototype.trim` over the
  ECMAScript whitespace and line-terminator code points. The model proves that
  the result is the unique whitespace-free core of the input and that it is
  empty exactly when the input is blank.
- `typers.dfy` (module `Typers`): the typing list. The source stores it as an
  array but uses it as a set, with insert-if-absent and filter-out.
- `client.dfy` (module `Client`): the state record, the three inbound handlers,
  name submit, send and the key handler.
- `session.dfy` (module `Session`): whole sessions. Each is a trace that
  interleaves user actions with server events. The module proves the invariant
  every reachable state keeps, that the log keeps arrival order, and how one
  client's send lands in another client's log.

Each user action returns a `Step`: the next state plus the events sent, in
order. `Date.now()` is read twice when a message is built, once for `id` and
once for `ts`. Both readings are parameters (`idNow`, `tsNow`), and nothing
forces them to be equal.

Points about the code as written:

- The event names are `joinRoom`, `chatMessage`, `typing`, `stopTyping` and
  `roomNotice`.
- The name-submit handler does not check that the user has not joined yet.
  Only the page hides the form once the popup closes. So `SubmitName` can be
  applied again, and it then replaces the log once more.
- `handleNameSubmit` leaves `inputName` as it was.

The session model lets every user action happen in every state. The page is
stricter: it shows the name form only while `showNamePopup` is true, and the
message box only after it is false (`frontend/src/App.jsx:127`, `:157`). In
the model a user can therefore send from the page-load state, which produces
a message whose sender is the empty name. This over-approximates what the page
allows, so the invariants proved over all traces also hold for the traces the
page permits.

## Model

| member | source | states |
|---|---|---|
| Text.Trim | frontend/src/App.jsx:75-76 | the trimmed name is empty exactly when the field is blank (the `!trimmed` guard); otherwise it is an infix of the input with non-whitespace ends and only whitespace around it |
| Text.TrimIsUnique | frontend/src/App.jsx:96-97 | any infix with non-whitespace ends and only whitespace around it equals the trimmed text, so trim is fully determined by that description |
| Text.TrimIdempotent | frontend/src/App.jsx:96 | trimming already-trimmed text changes nothing |
| Typers.AddTyper | frontend/src/App.jsx:32-37 | a name already listed leaves the list unchanged; a new name is appended at the end, earlier entries keep their positions, and the multiset gains exactly that name |
| Typers.AddTyperIdempotent | frontend/src/App.jsx:34-35 | two `typing` events for one name give the same list as one |
| Typers.AddTyperKeepsNoDuplicates | frontend/src/App.jsx:32-37 | a duplicate-free typing list stays duplicate-free after `typing` |
| Typers.RemoveTyper | frontend/src/App.jsx:41 | the name is gone; every other name keeps its multiplicity and relative order (subsequence); a list without the name is returned unchanged |
| Typers.RemoveTyperKeepsNoDuplicates | frontend/src/App.jsx:41 | a duplicate-free typing list stays duplicate-free after `stopTyping` |
| Typers.StopTypingUndoesTyping | frontend/src/App.jsx:30-42 | `stopTyping` after `typing` for a name gives what `stopTyping` alone gives, and it restores a list that did not show the name |
| Client.OnChatMessage | frontend/src/App.jsx:25-29 | the log grows by exactly one, the payload sits verbatim at the end, the old prefix is unchanged, and no other field moves |
| Client.OnTyping | frontend/src/App.jsx:30-38 | the name is shown; a known name changes nothing; a new one goes last; no duplicates appear; only `typers` changes |
| Client.OnStopTyping | frontend/src/App.jsx:39-42 | the name is no longer shown; other names are kept in order; an absent name changes nothing; only `typers` changes |
| Client.Receive | frontend/src/App.jsx:25-42 | inbound events never change the identity, popup or input fields, only extend the log, and keep the typing list duplicate-free |
| Client.SubmitName | frontend/src/App.jsx:73-92 | a blank name changes nothing and sends nothing; otherwise exactly one `joinRoom` with the trimmed name is sent, the log is replaced by one System message quoting that name, the name is recorded, the popup closes, and no other field moves |
| Client.SendMessage | frontend/src/App.jsx:95-114 | blank text changes nothing and sends nothing; otherwise exactly one message (sender = userName, text = trimmed text) is appended, that same message is sent once as `chatMessage`, the box is cleared, and no other field moves |
| Client.HandleKeyDown | frontend/src/App.jsx:117-122 | Enter without Shift behaves as the send button; any other key, or Enter with a blank box, changes nothing and sends nothing |
| Client.WelcomeText | frontend/src/App.jsx:85 | the welcome line contains the joined name |
| Session.Act | frontend/src/App.jsx:136-230 | editing a field sets only that field; no user action touches the typing list or sends more than one event |
| Session.SubmitNameKeepsConsistent | frontend/src/App.jsx:73-92 | name submit keeps the session invariant and sends only a non-blank trimmed name |
| Session.SendMessageKeepsConsistent | frontend/src/App.jsx:95-114 | sending keeps the session invariant and sends only non-blank trimmed text |
| Session.ActKeepsConsistent | frontend/src/App.jsx:73-122 | every user action keeps the session invariant |
| Session.ReceiveKeepsConsistent | frontend/src/App.jsx:25-42 | every inbound event keeps the session invariant; in particular, once joined, the welcome message stays first |
| Session.InitialIsConsistent | frontend/src/App.jsx:6-12 | the state at page load satisfies the session invariant |
| Session.RunKeepsConsistent | frontend/src/App.jsx:25-122 | for any interleaving of user actions and server events, the invariant holds throughout: typers duplicate-free, popup open exactly while no name is set, name trimmed, and once joined the log starts with the welcome for that name; every `joinRoom` and `chatMessage` sent is trimmed and non-blank |
| Session.ReachableIsConsistent | frontend/src/App.jsx:6-12 | every state reachable from page load satisfies the invariant |
| Session.ReceiveAllAppendsInArrivalOrder | frontend/src/App.jsx:25-29 | after any sequence of server events, the log is the old log followed by the chat payloads in arrival order, each once |
| Session.Forward | backend/server.js:28-30 | a chat message reaches the peer unchanged as one inbound chatMessage; a join reaches it as a notice the client only logs, so the peer's state does not change |
| Session.SendThenDeliver | frontend/src/App.jsx:95-114 | the sender's log gains the sent message once (local echo), and a peer receiving the relayed event gains the identical message once at the end of its log |

## Left out

- The typing-indicator debounce effect (`frontend/src/App.jsx:49-62`), which sends `typing` and, after one second of quiet, `stopTyping`. It depends on `setTimeout`/`clearTimeout` and on React's effect re-run and cleanup order, so it is timing rather than sequential state. The model therefore never sends `typing` or `stopTyping` itself.
- `formatTime` (`frontend/src/App.jsx:65-70`): it reads the local time zone.
- The `connect` and `roomNotice` handlers (`frontend/src/App.jsx:17-23`) and the `console.log` in the message handler. They only log.
- Socket creation (`frontend/src/ws.js`) and disconnect on unmount (`frontend/src/App.jsx:44-46`): these are I/O lifecycle.
- `e.preventDefault()` in the submit and key handlers (`frontend/src/App.jsx:74`, `:119`). In the submit handler it stops the form submission from reloading the page, which would reset every field to its page-load value. In the key handler it stops Enter from inserting a newline into the message box. The model does neither, which matches what the calls prevent.
- All rendering and styling (`frontend/src/App.jsx:124-236`), including the "mine" bubble alignment and the "is/are typing" text.
- The relay server (`backend/server.js`): room membership and delivery to everyone but the sender belong to the socket library. `Session.Forward` models only what a peer sees: a chat message is forwarded verbatim (`backend/server.js:28-30`), and a join arrives as a `roomNotice` (`backend/server.js:24`), which the client only logs.
- Payload shapes: JavaScript handlers accept any value. The model types inbound chat payloads as `Message` and names as strings.
- The clock: `Date.now()` readings are parameters, and the model states nothing about id uniqueness.
