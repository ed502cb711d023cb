/**
  A whole client session: the user's actions and the server's events
  interleaved in one trace, applied one after another the way the browser's
  single event loop applies them. The properties here hold for every trace.
 */
module Session {
  import opened Text
  import opened Typers
  import opened Client

  /** What the user can do in the page: edit the name field, submit it, edit
      the message box, press the send button, or press a key in the box. */
  datatype UserAction =
    | EditName(value: string)
    | SubmitNameForm
    | EditText(value: string)
    | ClickSend
    | KeyDown(key: string, shiftKey: bool)

  /** One entry of a trace: a server event, or a user action together with
      the two clock readings a message built by it would take. */
  datatype Event =
    | Server(inbound: Inbound)
    | User(action: UserAction, idNow: int, tsNow: int)

  /** Applies one user action. */
  function Act(s: ClientState, a: UserAction, idNow: int, tsNow: int): (r: Step)
    ensures a.EditName? ==> r == Step(s.(inputName := a.value), [])
    ensures a.EditText? ==> r == Step(s.(text := a.value), [])
    ensures r.state.typers == s.typers
    ensures |r.emitted| <= 1
  {
    match a
    case EditName(v) => Step(s.(inputName := v), [])
    case SubmitNameForm => SubmitName(s, idNow, tsNow)
    case EditText(v) => Step(s.(text := v), [])
    case ClickSend => SendMessage(s, idNow, tsNow)
    case KeyDown(k, shift) => HandleKeyDown(s, k, shift, idNow, tsNow)
  }

  /** Applies one trace entry: server events send nothing. */
  function Apply(s: ClientState, e: Event): Step {
    match e
    case Server(ev) => Step(Receive(s, ev), [])
    case User(a, idNow, tsNow) => Act(s, a, idNow, tsNow)
  }

  /** Applies a trace from the front; the result holds the final state and
      everything sent along the way, in sending order. */
  function Run(s: ClientState, trace: seq<Event>): Step
    decreases |trace|
  {
    if trace == [] then Step(s, [])
    else
      var first := Apply(s, trace[0]);
      var rest := Run(first.state, trace[1..]);
      Step(rest.state, first.emitted + rest.emitted)
  }

  /** Applies a sequence of server events in arrival order. */
  function ReceiveAll(s: ClientState, evs: seq<Inbound>): ClientState
    decreases |evs|
  {
    if evs == [] then s else ReceiveAll(Receive(s, evs[0]), evs[1..])
  }

  /** The chat payloads among some server events, in arrival order. */
  function Payloads(evs: seq<Inbound>): seq<Message>
    decreases |evs|
  {
    if evs == [] then []
    else if evs[0].IncomingMessage? then [evs[0].message] + Payloads(evs[1..])
    else Payloads(evs[1..])
  }

  /** What every reachable client state satisfies: the typers list is
      duplicate-free; the popup is open exactly while nobody is signed in;
      the signed-in name is trimmed; and once joined, the log starts with
      the System welcome for the signed-in name. */
  predicate Consistent(s: ClientState) {
    && NoDuplicates(s.typers)
    && (s.showNamePopup <==> s.userName == [])
    && TightEnds(s.userName)
    && (Joined(s) ==>
          && |s.messages| >= 1
          && s.messages[0].sender == SystemSender
          && s.messages[0].text == WelcomeText(s.userName))
  }

  /** A message the client may send: its text is non-blank and trimmed. */
  predicate Sendable(o: Outbound) {
    match o
    case JoinRoom(name) => name != [] && TightEnds(name)
    case ChatMessage(m) => m.text != [] && TightEnds(m.text)
  }

  lemma InitialIsConsistent()
    ensures Consistent(Initial)
  {
  }

  /** Submitting the name keeps the invariant: the welcome for the new name
      becomes the whole log, and the join carries a trimmed, non-blank name. */
  lemma SubmitNameKeepsConsistent(s: ClientState, idNow: int, tsNow: int)
    requires Consistent(s)
    ensures Consistent(SubmitName(s, idNow, tsNow).state)
    ensures forall o :: o in SubmitName(s, idNow, tsNow).emitted ==> Sendable(o)
  {
  }

  /** Sending keeps the invariant: the log only grows at its end, and what
      goes out has trimmed, non-blank text. */
  lemma SendMessageKeepsConsistent(s: ClientState, idNow: int, tsNow: int)
    requires Consistent(s)
    ensures Consistent(SendMessage(s, idNow, tsNow).state)
    ensures forall o :: o in SendMessage(s, idNow, tsNow).emitted ==> Sendable(o)
  {
  }

  /** Every user action keeps the invariant and sends only trimmed content. */
  lemma ActKeepsConsistent(s: ClientState, a: UserAction, idNow: int, tsNow: int)
    requires Consistent(s)
    ensures Consistent(Act(s, a, idNow, tsNow).state)
    ensures forall o :: o in Act(s, a, idNow, tsNow).emitted ==> Sendable(o)
  {
    match a
    case EditName(v) =>
    case EditText(v) =>
    case SubmitNameForm => SubmitNameKeepsConsistent(s, idNow, tsNow);
    case ClickSend => SendMessageKeepsConsistent(s, idNow, tsNow);
    case KeyDown(k, shift) => SendMessageKeepsConsistent(s, idNow, tsNow);
  }

  /** Every server event keeps the invariant. */
  lemma ReceiveKeepsConsistent(s: ClientState, ev: Inbound)
    requires Consistent(s)
    ensures Consistent(Receive(s, ev))
  {
  }

  /** Whatever the interleaving of user actions and server events, a
      consistent state stays consistent, and everything sent is trimmed and
      non-blank. */
  lemma {:induction false} RunKeepsConsistent(s: ClientState, trace: seq<Event>)
    requires Consistent(s)
    ensures Consistent(Run(s, trace).state)
    ensures forall o :: o in Run(s, trace).emitted ==> Sendable(o)
    decreases |trace|
  {
    if trace != [] {
      var first := Apply(s, trace[0]);
      match trace[0] {
        case Server(ev) => ReceiveKeepsConsistent(s, ev);
        case User(a, idNow, tsNow) => ActKeepsConsistent(s, a, idNow, tsNow);
      }
      RunKeepsConsistent(first.state, trace[1..]);
    }
  }

  /** Every session that starts from a freshly loaded page is consistent. */
  lemma ReachableIsConsistent(trace: seq<Event>)
    ensures Consistent(Run(Initial, trace).state)
    ensures forall o :: o in Run(Initial, trace).emitted ==> Sendable(o)
  {
    RunKeepsConsistent(Initial, trace);
  }

  /** The log shows messages in arrival order: after any run of server
      events, it is the old log followed by the chat payloads as they came,
      each exactly once; identity and input fields do not move. */
  lemma {:induction false} ReceiveAllAppendsInArrivalOrder(s: ClientState, evs: seq<Inbound>)
    ensures ReceiveAll(s, evs).messages == s.messages + Payloads(evs)
    ensures ReceiveAll(s, evs).userName == s.userName
    ensures ReceiveAll(s, evs).showNamePopup == s.showNamePopup
    ensures ReceiveAll(s, evs).text == s.text
    decreases |evs|
  {
    if evs != [] {
      var next := Receive(s, evs[0]);
      ReceiveAllAppendsInArrivalOrder(next, evs[1..]);
      match evs[0]
      case IncomingMessage(m) =>
        assert next.messages == s.messages + [m];
      case Typing(n) =>
      case StopTyping(n) =>
    }
  }

  /** The relay forwards a chat message to the other room members verbatim;
      the join event reaches them as a notice the client only logs. */
  function Forward(o: Outbound): (r: seq<Inbound>)
    ensures |r| <= 1
    ensures Payloads(r) == (if o.ChatMessage? then [o.message] else [])
    ensures forall s :: ReceiveAll(s, r) == (if o.ChatMessage? then OnChatMessage(s, o.message) else s)
  {
    match o
    case JoinRoom(_) => []
    case ChatMessage(m) => [IncomingMessage(m)]
  }

  /** One user sends, another receives what was sent: the sender's log ends
      with the message (local echo, once), and the receiver's log gains that
      same message, with the same sender, text, id and timestamp, exactly
      once at its end. */
  lemma SendThenDeliver(sender: ClientState, receiver: ClientState, idNow: int, tsNow: int)
    requires !AllWhitespace(sender.text)
    ensures var sent := SendMessage(sender, idNow, tsNow);
            var got := ReceiveAll(receiver, Forward(sent.emitted[0]));
            && |sent.emitted| == 1
            && sent.state.messages == sender.messages + [sent.emitted[0].message]
            && got.messages == receiver.messages + [sent.emitted[0].message]
            && sent.emitted[0].message.sender == sender.userName
            && sent.emitted[0].message.text == Trim(sender.text)
  {
    var sent := SendMessage(sender, idNow, tsNow);
    var m := sent.state.messages[|sender.messages|];
    assert sent.state.messages == sender.messages + [m];
    ReceiveAllAppendsInArrivalOrder(receiver, [IncomingMessage(m)]);
    assert Payloads([IncomingMessage(m)]) == [m];
  }
}
