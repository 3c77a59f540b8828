/** The session manager's side of the protocol (X Session Management Protocol,
    section 9.1), with messages in flight in both directions. */
module SessionProtocol {
  datatype SaveType = SaveGlobal | SaveLocal | SaveBoth
  datatype InteractStyle = StyleNone | StyleErrors | StyleAny

  datatype ServerMessage =
    | SaveYourself(saveType: SaveType, shutdown: bool, style: InteractStyle, fast: bool)
    | Interact
    | SaveComplete
    | ShutdownCancelled
    | Die

  datatype ClientMessage = InteractRequest(errors: bool) | InteractDone(cancelShutdown: bool) | SaveYourselfDone(success: bool)

  /** What the session manager knows of the client. */
  datatype View = Idle | Saving | WantsInteract | Interacting | Done | Cancelling

  /** `inbox` is on its way to the client, `outbox` to the session manager. */
  datatype Net = Net(view: View, shutdown: bool, dead: bool, inbox: seq<ServerMessage>, outbox: seq<ClientMessage>, conformant: bool)
  {
    /** The messages section 9.1 allows the session manager to send. */
    predicate MaySend(m: ServerMessage) {
      !dead &&
      match m
      case SaveYourself(_, _, _, _) => view == Idle
      case Interact => view == WantsInteract
      case SaveComplete => view == Done
      case ShutdownCancelled => shutdown && view != Idle && view != Cancelling
      case Die => true
    }

    function Send(m: ServerMessage): Net {
      var next := this.(inbox := inbox + [m], conformant := conformant && MaySend(m));
      match m
      case SaveYourself(_, shutdown, _, _) => next.(view := Saving, shutdown := shutdown)
      case Interact => next.(view := Interacting)
      case SaveComplete => next.(view := Idle)
      case ShutdownCancelled => next.(view := if view == Done then Idle else Cancelling)
      case Die => next.(dead := true)
    }

    /** The session manager takes the client's first message. */
    function Receive(): Net
      requires outbox != []
    {
      var next := this.(outbox := outbox[1..]);
      match outbox[0]
      case InteractRequest(_) => if view == Saving then next.(view := WantsInteract) else next
      case InteractDone(_) => if view == Interacting then next.(view := Saving) else next
      case SaveYourselfDone(_) => next.(view := if view == Cancelling then Idle else Done)
    }

    /** The client takes the session manager's first message. */
    function Delivered(): Net
      requires inbox != []
    {
      this.(inbox := inbox[1..])
    }

    function Reply(m: ClientMessage): Net {
      this.(outbox := outbox + [m])
    }
  }

  /** Where the client is in the protocol: `Ready` for a request, or with a request
      deferred, asked, interacting or finished. */
  datatype Phase = Ready | Deferred | Asked | Asking | Finished

  predicate Request(m: ServerMessage, shutdown: bool) {
    m.SaveYourself? && m.shutdown == shutdown
  }

  /** The messages that end a request. */
  predicate Ending(m: ServerMessage) {
    m == ShutdownCancelled || m == SaveComplete
  }

  /** The last request is still on its way, behind the end of the one before. */
  predicate Fresh(inbox: seq<ServerMessage>, shutdown: bool, phase: Phase) {
    || (|inbox| == 1 && Request(inbox[0], shutdown) && phase == Ready)
    || (|inbox| == 2 && Ending(inbox[0]) && Request(inbox[1], shutdown) && phase == Finished)
  }

  predicate IsDone(out: seq<ClientMessage>) { |out| == 1 && out[0].SaveYourselfDone? }

  predicate IsAsk(out: seq<ClientMessage>) { |out| == 1 && out[0].InteractRequest? }

  predicate IsAnswer(out: seq<ClientMessage>) { |out| == 2 && out[0].InteractDone? && out[1].SaveYourselfDone? }

  predicate IsAskDone(out: seq<ClientMessage>) { |out| == 2 && out[0].InteractRequest? && out[1].SaveYourselfDone? }

  /** What is in flight when the cancellation is the session manager's last message,
      apart from the cancellation itself. */
  predicate Overtaken(inbox: seq<ServerMessage>, shutdown: bool, out: seq<ClientMessage>, phase: Phase) {
    || (Fresh(inbox, shutdown, phase) && out == [])
    || (inbox == [Interact] && phase == Asked && out == [])
    || (inbox == [] &&
         match phase
         case Ready => false
         case Deferred => out == []
         case Asked => out == [] || IsAsk(out)
         case Asking => out == []
         case Finished => IsDone(out) || IsAnswer(out))
  }

  /** The session manager's view, what is in flight and the client's phase agree. */
  predicate Linked(view: View, shutdown: bool, inbox: seq<ServerMessage>, out: seq<ClientMessage>, phase: Phase) {
    match view
    case Idle => out == [] && if inbox == [] then phase == Ready else |inbox| == 1 && Ending(inbox[0]) && phase == Finished
    case Saving =>
      || (Fresh(inbox, shutdown, phase) && out == [])
      || (inbox == [] && ((phase == Deferred && out == []) || (phase == Asked && IsAsk(out)) || (phase == Finished && IsDone(out))))
    case WantsInteract => inbox == [] && phase == Asked && out == []
    case Interacting =>
      || (inbox == [Interact] && phase == Asked && out == [])
      || (inbox == [] && ((phase == Asking && out == []) || (phase == Finished && IsAnswer(out))))
    case Done => inbox == [] && phase == Finished && out == []
    case Cancelling =>
      if inbox == [] then
        phase == Ready && (out == [] || IsDone(out) || IsAnswer(out) || IsAskDone(out))
      else
        inbox[|inbox| - 1] == ShutdownCancelled && Overtaken(inbox[..|inbox| - 1], shutdown, out, phase)
  }

  /** A connection between a client in this phase and a session manager that has kept
      to the protocol. */
  predicate InStep(net: Net, phase: Phase) {
    if net.dead then
      net.inbox != [] && net.inbox[|net.inbox| - 1] == Die
      && Linked(net.view, net.shutdown, net.inbox[..|net.inbox| - 1], net.outbox, phase)
    else
      Linked(net.view, net.shutdown, net.inbox, net.outbox, phase)
  }

  lemma SendKeeps(net: Net, phase: Phase, m: ServerMessage)
    requires InStep(net, phase) && net.MaySend(m)
    ensures InStep(net.Send(m), phase)
  {
    hide Linked;
    match m
    case SaveYourself(_, _, _, _) => RequestSent(net.inbox, phase, m, net.outbox, net.shutdown);
    case ShutdownCancelled => CancelSent(net.view, net.shutdown, net.inbox, net.outbox, phase);
    case Die => assert net.Send(m).inbox[..|net.inbox|] == net.inbox;
    case Interact => ReplySent(net.view, net.shutdown, net.inbox, net.outbox, phase);
    case SaveComplete => ReplySent(net.view, net.shutdown, net.inbox, net.outbox, phase);
  }

  lemma ReplySent(view: View, shutdown: bool, inbox: seq<ServerMessage>, out: seq<ClientMessage>, phase: Phase)
    requires Linked(view, shutdown, inbox, out, phase)
    ensures view == WantsInteract ==> Linked(Interacting, shutdown, inbox + [Interact], out, phase)
    ensures view == Done ==> Linked(Idle, shutdown, inbox + [SaveComplete], out, phase)
  {
    assert inbox == [] ==> forall m :: inbox + [m] == [m];
  }

  lemma RequestSent(inbox: seq<ServerMessage>, phase: Phase, m: ServerMessage, out: seq<ClientMessage>, shutdown: bool)
    requires Linked(Idle, shutdown, inbox, out, phase) && m.SaveYourself?
    ensures Linked(Saving, m.shutdown, inbox + [m], out, phase)
  {
    if inbox != [] { assert (inbox + [m])[0] == inbox[0]; }
  }

  lemma CancelSent(view: View, shutdown: bool, inbox: seq<ServerMessage>, out: seq<ClientMessage>, phase: Phase)
    requires Linked(view, shutdown, inbox, out, phase) && view != Idle && view != Cancelling
    ensures Linked(if view == Done then Idle else Cancelling, shutdown, inbox + [ShutdownCancelled], out, phase)
  {
    assert (inbox + [ShutdownCancelled])[..|inbox|] == inbox;
  }

  /** Taking a message off the client's queue leaves the rest in place. */
  lemma ReceiveKeeps(net: Net, phase: Phase)
    requires InStep(net, phase) && net.outbox != []
    ensures InStep(net.Receive(), phase)
  {
    if |net.outbox| == 2 { assert net.outbox[1..] == [net.outbox[1]]; } else { assert |net.outbox[1..]| == |net.outbox| - 1; }
  }

  // ----- what each message finds -----

  /** Every message of a conforming session manager finds the client in a phase in which
      the protocol expects it. */
  lemma MessageExpected(net: Net, phase: Phase)
    requires InStep(net, phase) && net.inbox != []
    ensures match net.inbox[0]
      case SaveYourself(_, _, _, _) => phase == Ready
      case Interact => phase == Asked
      case SaveComplete => phase == Finished
      case ShutdownCancelled => phase != Ready
      case Die => true
  {
    if net.dead && |net.inbox| > 1 { assert net.inbox[..|net.inbox| - 1][0] == net.inbox[0]; }
  }

  /** The queue without its first message, and what is before a final message. */
  lemma Tail(net: Net)
    requires net.inbox != [] && (net.dead ==> net.inbox[|net.inbox| - 1] == Die && |net.inbox| > 1)
    ensures var d := net.Delivered();
      && (net.dead ==> d.inbox != [] && d.inbox[|d.inbox| - 1] == Die && d.inbox[..|d.inbox| - 1] == net.inbox[..|net.inbox| - 1][1..])
  {
  }

  /** A request is taken up, or deferred. */
  lemma RequestTaken(net: Net, errors: bool, success: bool)
    requires InStep(net, Ready) && net.inbox != [] && net.inbox[0].SaveYourself?
    ensures InStep(net.Delivered(), Deferred)
    ensures InStep(net.Delivered().Reply(InteractRequest(errors)), Asked)
    ensures InStep(net.Delivered().Reply(SaveYourselfDone(success)), Finished)
  {
    Tail(net);
    TakenCore(Core(net), net.view, net.shutdown, net.outbox, errors, success);
  }

  function Core(net: Net): seq<ServerMessage> {
    if net.dead && net.inbox != [] then net.inbox[..|net.inbox| - 1] else net.inbox
  }

  lemma TakenCore(inbox: seq<ServerMessage>, view: View, shutdown: bool, out: seq<ClientMessage>, errors: bool, success: bool)
    requires Linked(view, shutdown, inbox, out, Ready) && inbox != [] && inbox[0].SaveYourself?
    ensures Linked(view, shutdown, inbox[1..], out, Deferred)
    ensures Linked(view, shutdown, inbox[1..], out + [InteractRequest(errors)], Asked)
    ensures Linked(view, shutdown, inbox[1..], out + [SaveYourselfDone(success)], Finished)
  {
    if view == Cancelling {
      assert inbox[1..][..|inbox| - 2] == inbox[..|inbox| - 1][1..];
    }
  }

  lemma InteractTaken(net: Net)
    requires InStep(net, Asked) && net.inbox != [] && net.inbox[0] == Interact
    ensures InStep(net.Delivered(), Asking)
  {
    Tail(net);
    var inbox := Core(net);
    if net.view == Cancelling { assert inbox[1..][..|inbox| - 2] == inbox[..|inbox| - 1][1..]; }
  }

  /** The end of a finished request. */
  lemma EndingTaken(net: Net)
    requires InStep(net, Finished) && net.inbox != [] && Ending(net.inbox[0])
    ensures InStep(net.Delivered(), Ready)
  {
    Tail(net);
    var inbox := Core(net);
    if net.view == Cancelling && |inbox| > 1 {
      assert inbox[1..][..|inbox[1..]| - 1] == inbox[..|inbox| - 1][1..];
    }
  }

  /** A cancellation before the request is finished: it is answered, or, when the request
      was deferred, dropped with it. */
  lemma CancelTaken(net: Net, phase: Phase)
    requires InStep(net, phase) && net.inbox != [] && net.inbox[0] == ShutdownCancelled && phase != Finished
    ensures phase == Deferred ==> InStep(net.Delivered(), Ready)
    ensures phase != Deferred ==> InStep(net.Delivered().Reply(SaveYourselfDone(false)), Ready)
  {
    MessageExpected(net, phase);
    Tail(net);
  }

  /** The application has answered. */
  lemma AnswerSent(net: Net, cancel: bool, success: bool)
    requires InStep(net, Asking)
    ensures InStep(net.Reply(InteractDone(cancel)).Reply(SaveYourselfDone(success)), Finished)
  {
    assert net.outbox == [];
  }

  /** A deferred request is taken up. */
  lemma DeferredTaken(net: Net, errors: bool, success: bool)
    requires InStep(net, Deferred)
    ensures InStep(net.Reply(InteractRequest(errors)), Asked)
    ensures InStep(net.Reply(SaveYourselfDone(success)), Finished)
  {
    assert net.outbox == [];
  }
}
