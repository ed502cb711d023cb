/**
  The chat client's state machine. The component's state is one record;
  every handler is a pure transition from a state to a new state plus the
  list of events it sends to the relay server. The clock (`Date.now()`) is
  read twice when a message is built, once for its id and once for its
  timestamp; both readings are parameters here.
 */
module Client {
  import opened Text
  import opened Typers

  /** A chat message as built by a sender and forwarded verbatim. */
  datatype Message = Message(id: int, sender: string, text: string, ts: int)

  /** The component state: the signed-in name, whether the name popup is
      open, the name field, the typing peers, the message log, the message box. */
  datatype ClientState = ClientState(
    userName: string,
    showNamePopup: bool,
    inputName: string,
    typers: seq<string>,
    messages: seq<Message>,
    text: string)

  /** Events the client sends to the relay server. */
  datatype Outbound = JoinRoom(name: string) | ChatMessage(message: Message)

  /** Events the client receives from the relay server and acts upon. */
  datatype Inbound = IncomingMessage(message: Message) | Typing(name: string) | StopTyping(name: string)

  /** The result of a user action: the next state and what it sent, in order. */
  datatype Step = Step(state: ClientState, emitted: seq<Outbound>)

  /** The sender name of the local welcome message. */
  const SystemSender: string := "System"

  /** The state when the page loads: nobody signed in, popup open, all empty. */
  const Initial: ClientState := ClientState("", true, "", [], [], "")

  /** The welcome line shown after joining; it quotes the name at offset 8. */
  function WelcomeText(name: string): (w: string)
    ensures |w| >= 8 + |name| && w[8..8 + |name|] == name
  {
    "Welcome " + name + "! You have joined the group chat."
  }

  /** The chat window is open: the name popup closes exactly on joining. */
  predicate Joined(s: ClientState) {
    !s.showNamePopup
  }

  // ---------------------------------------------------------------------
  // Inbound handlers
  // ---------------------------------------------------------------------

  /** `chatMessage` from the server: the payload is appended verbatim; the
      log grows by one, its old entries keep their places, nothing else moves. */
  function OnChatMessage(s: ClientState, m: Message): (r: ClientState)
    ensures |r.messages| == |s.messages| + 1
    ensures r.messages[..|s.messages|] == s.messages
    ensures r.messages[|s.messages|] == m
    ensures r.(messages := s.messages) == s
  {
    s.(messages := s.messages + [m])
  }

  /** `typing` from the server: the peer is shown as typing, once. */
  function OnTyping(s: ClientState, name: string): (r: ClientState)
    ensures name in r.typers
    ensures name in s.typers ==> r == s
    ensures name !in s.typers ==> |r.typers| == |s.typers| + 1 && r.typers[..|s.typers|] == s.typers && r.typers[|s.typers|] == name
    ensures NoDuplicates(s.typers) ==> NoDuplicates(r.typers)
    ensures r.(typers := s.typers) == s
  {
    var r := s.(typers := AddTyper(s.typers, name));
    assert NoDuplicates(s.typers) ==> NoDuplicates(r.typers) by {
      if NoDuplicates(s.typers) {
        AddTyperKeepsNoDuplicates(s.typers, name);
      }
    }
    r
  }

  /** `stopTyping` from the server: the peer is no longer shown as typing;
      the other peers keep their order, and nothing else moves. */
  function OnStopTyping(s: ClientState, name: string): (r: ClientState)
    ensures name !in r.typers
    ensures forall n :: n in r.typers <==> n in s.typers && n != name
    ensures IsSubsequence(r.typers, s.typers)
    ensures name !in s.typers ==> r == s
    ensures NoDuplicates(s.typers) ==> NoDuplicates(r.typers)
    ensures r.(typers := s.typers) == s
  {
    var t := RemoveTyper(s.typers, name);
    assert NoDuplicates(s.typers) ==> NoDuplicates(t) by {
      if NoDuplicates(s.typers) {
        RemoveTyperKeepsNoDuplicates(s.typers, name);
      }
    }
    assert forall n :: n in t <==> n in multiset(t);
    assert forall n :: n in s.typers <==> n in multiset(s.typers);
    s.(typers := t)
  }

  /** Dispatches one inbound event to its handler. Inbound events never
      send anything, and they never touch the identity or the input fields. */
  function Receive(s: ClientState, ev: Inbound): (r: ClientState)
    ensures r.userName == s.userName && r.showNamePopup == s.showNamePopup
    ensures r.inputName == s.inputName && r.text == s.text
    ensures NoDuplicates(s.typers) ==> NoDuplicates(r.typers)
    ensures s.messages <= r.messages
  {
    match ev
    case IncomingMessage(m) => OnChatMessage(s, m)
    case Typing(n) => OnTyping(s, n)
    case StopTyping(n) => OnStopTyping(s, n)
  }

  // ---------------------------------------------------------------------
  // User actions
  // ---------------------------------------------------------------------

  /** The name form's submit: with a blank name nothing happens; otherwise
      the client joins the room under the trimmed name, the log is replaced
      by a single welcome message from System quoting that name, the name is
      recorded and the popup closes. The typers, the name field and the
      message box are left as they were. */
  function SubmitName(s: ClientState, idNow: int, tsNow: int): (r: Step)
    ensures AllWhitespace(s.inputName) ==> r == Step(s, [])
    ensures !AllWhitespace(s.inputName) ==>
              var name := Trim(s.inputName);
              && r.emitted == [JoinRoom(name)]
              && |r.state.messages| == 1
              && r.state.messages[0] == Message(idNow, SystemSender, WelcomeText(name), tsNow)
              && r.state.messages[0].text[8..8 + |name|] == name
              && r.state.userName == name
              && r.state.userName != [] && TightEnds(r.state.userName)
              && !r.state.showNamePopup
              && r.state.(userName := s.userName, showNamePopup := s.showNamePopup, messages := s.messages) == s
  {
    var trimmed := Trim(s.inputName);
    if trimmed == [] then Step(s, [])
    else
      var welcome := Message(idNow, SystemSender, WelcomeText(trimmed), tsNow);
      Step(s.(messages := [welcome], userName := trimmed, showNamePopup := false), [JoinRoom(trimmed)])
  }

  /** The send button: with a blank message box nothing happens; otherwise
      one message from the signed-in name carrying the trimmed text is
      appended to the log (local echo), that same message is sent once, and
      the box is cleared. */
  function SendMessage(s: ClientState, idNow: int, tsNow: int): (r: Step)
    ensures AllWhitespace(s.text) ==> r == Step(s, [])
    ensures !AllWhitespace(s.text) ==>
              && |r.state.messages| == |s.messages| + 1
              && r.state.messages[..|s.messages|] == s.messages
              && r.state.messages[|s.messages|] == Message(idNow, s.userName, Trim(s.text), tsNow)
              && r.emitted == [ChatMessage(r.state.messages[|s.messages|])]
              && r.state.text == []
              && r.state.(messages := s.messages, text := s.text) == s
  {
    var t := Trim(s.text);
    if t == [] then Step(s, [])
    else
      var msg := Message(idNow, s.userName, t, tsNow);
      Step(s.(messages := s.messages + [msg], text := ""), [ChatMessage(msg)])
  }

  /** The message box's key handler: Enter without Shift sends, and every
      other key (or Shift+Enter, a line break) leaves the state alone and
      sends nothing. */
  function HandleKeyDown(s: ClientState, key: string, shiftKey: bool, idNow: int, tsNow: int): (r: Step)
    ensures key == "Enter" && !shiftKey ==> r == SendMessage(s, idNow, tsNow)
    ensures r != Step(s, []) ==> key == "Enter" && !shiftKey && !AllWhitespace(s.text)
  {
    if key == "Enter" && !shiftKey then SendMessage(s, idNow, tsNow) else Step(s, [])
  }
}
