/** The Windows backend: a listener thread hands each logout message to the main thread
    and waits for the response, over two auto-reset events and two shared variables. */
module LogoutListener {
  import opened Wrappers

  datatype Message = QueryEndSession | EndSession(ending: bool)

  datatype Callback = EmitQuitRequested | EmitQuit | EmitQuitCancelled

  function CallbackFor(m: Message): Callback {
    match m
    case QueryEndSession => EmitQuitRequested
    case EndSession(ending) => if ending then EmitQuit else EmitQuitCancelled
  }

  function CallbacksFor(ms: seq<Message>): (r: seq<Callback>)
    ensures |r| == |ms| && forall i :: 0 <= i < |ms| ==> r[i] == CallbackFor(ms[i])
  {
    seq(|ms|, i requires 0 <= i < |ms| => CallbackFor(ms[i]))
  }

  /** Where the listener is in the window procedure. */
  datatype Listener = Idle | Received(m: Message) | Assigned(m: Message) | Waiting(m: Message) | Woken(m: Message)

  /** Where the main thread is: in its loop, in `got_message`, in a callback, or between
      the two statements that end an answer or a callback. */
  datatype Main = Looping | GotMessage | Emitting(callback: Callback) | Answering | Finishing

  datatype System = System(
    listener: Listener,
    main: Main,
    event: Option<Callback>,
    willQuit: bool,
    messageEvent: bool,
    responseEvent: bool,
    owed: bool,                   // the application owes an answer
    posted: seq<Message>,         // messages signalled by the listener
    dispatched: seq<Callback>,    // callbacks started by the main thread
    given: seq<bool>,             // answers of the application
    returned: seq<bool>)          // what the queries returned

  datatype Action =
    | Receive(m: Message) | AssignEvent | SignalMessage | Wake | Return
    | Poll | Dispatch | Emit | Finish
    | Answer(willQuit: bool) | Respond

  const INITIAL := System(Idle, Looping, None, false, false, false, false, [], [], [], [])

  predicate Enabled(s: System, a: Action) {
    match a
    case Receive(_) => s.listener == Idle
    case AssignEvent => s.listener.Received?
    case SignalMessage => s.listener.Assigned?
    case Wake => s.listener.Waiting? && s.responseEvent
    case Return => s.listener.Woken?
    case Poll => s.main == Looping && s.messageEvent
    case Dispatch => s.main == GotMessage && s.event.Some?
    case Emit => s.main.Emitting?
    case Finish => s.main == Finishing
    case Answer(_) => s.main == Looping && s.owed
    case Respond => s.main == Answering
  }

  /** One step of one of the threads. */
  function Step(s: System, a: Action): System
    requires Enabled(s, a)
  {
    match a
    case Receive(m) => s.(listener := Received(m))
    case AssignEvent => s.(listener := Assigned(s.listener.m), event := Some(CallbackFor(s.listener.m)))
    case SignalMessage => s.(listener := Waiting(s.listener.m), messageEvent := true, posted := s.posted + [s.listener.m])
    case Wake => s.(listener := Woken(s.listener.m), responseEvent := false)
    case Return =>
      s.(listener := Idle, returned := if s.listener.m == QueryEndSession then s.returned + [s.willQuit] else s.returned)
    case Poll => s.(main := GotMessage, messageEvent := false)
    case Dispatch => s.(main := Emitting(s.event.value), dispatched := s.dispatched + [s.event.value])
    case Emit => if s.main.callback == EmitQuitRequested then s.(main := Looping, owed := true) else s.(main := Finishing)
    case Finish => s.(main := Looping, responseEvent := true)
    case Answer(b) => s.(main := Answering, willQuit := b, owed := false, given := s.given + [b])
    case Respond => s.(main := Looping, responseEvent := true)
  }

  // ----- who has control -----

  predicate ListenerHas(s: System) { !s.listener.Waiting? }

  predicate MainHas(s: System) { s.main != Looping || s.owed }

  function Holders(s: System): nat {
    (if ListenerHas(s) then 1 else 0) + (if s.messageEvent then 1 else 0)
    + (if MainHas(s) then 1 else 0) + (if s.responseEvent then 1 else 0)
  }

  /** The message that is being handled was answered. */
  predicate Answered(s: System) {
    s.listener.Woken? || (s.listener.Waiting? && (s.main == Answering || s.responseEvent))
  }

  ghost predicate Invariant(s: System) {
    && Holders(s) == 1
    && (s.listener.Assigned? || s.listener.Waiting? ==> s.event == Some(CallbackFor(s.listener.m)))
    && (s.owed || s.main == Answering ==> s.listener == Waiting(QueryEndSession))
    && (s.owed ==> s.main == Looping)
    && (s.main.Emitting? ==> s.listener.Waiting? && s.main.callback == CallbackFor(s.listener.m))
    && (s.main == Finishing ==> s.listener.Waiting? && s.listener.m != QueryEndSession)
    && (if s.messageEvent || s.main == GotMessage then
          s.posted != [] && s.dispatched == CallbacksFor(s.posted[..|s.posted| - 1])
          && s.listener == Waiting(s.posted[|s.posted| - 1])
        else s.dispatched == CallbacksFor(s.posted))
    && s.given == (if Answered(s) && s.listener.m == QueryEndSession then s.returned + [s.willQuit] else s.returned)
  }

  lemma CallbacksNext(ms: seq<Message>, m: Message)
    ensures CallbacksFor(ms + [m]) == CallbacksFor(ms) + [CallbackFor(m)]
  {
  }

  lemma StepKeeps(s: System, a: Action)
    requires Invariant(s) && Enabled(s, a)
    ensures Invariant(Step(s, a))
  {
    match a
    case SignalMessage => assert Step(s, a).posted[..|s.posted|] == s.posted;
    case Dispatch =>
      var n := |s.posted| - 1;
      CallbacksNext(s.posted[..n], s.posted[n]);
      assert s.posted[..n] + [s.posted[n]] == s.posted;
    case _ =>
  }

  // ----- runs -----

  /** The actions can be taken one after the other, the threads interleaved in any way. */
  predicate IsRun(s: System, actions: seq<Action>)
    decreases actions
  {
    actions == [] || (Enabled(s, actions[0]) && IsRun(Step(s, actions[0]), actions[1..]))
  }

  function After(s: System, actions: seq<Action>): System
    requires IsRun(s, actions)
    decreases actions
  {
    if actions == [] then s else After(Step(s, actions[0]), actions[1..])
  }

  lemma {:induction false} RunKeeps(s: System, actions: seq<Action>)
    requires Invariant(s) && IsRun(s, actions)
    ensures Invariant(After(s, actions))
    decreases actions
  {
    if actions != [] {
      StepKeeps(s, actions[0]);
      RunKeeps(Step(s, actions[0]), actions[1..]);
    }
  }

  /** The logout messages that come in the course of the actions, in order. */
  function Messages(actions: seq<Action>): seq<Message>
    decreases actions
  {
    if actions == [] then []
    else (if actions[0].Receive? then [actions[0].m] else []) + Messages(actions[1..])
  }

  /** The application's answers, in order. */
  function Answers(actions: seq<Action>): seq<bool>
    decreases actions
  {
    if actions == [] then []
    else (if actions[0].Answer? then [actions[0].willQuit] else []) + Answers(actions[1..])
  }

  /** A message that the listener has not posted yet. */
  function Unposted(s: System): (r: seq<Message>)
    ensures |r| <= 1
  {
    if s.listener.Received? || s.listener.Assigned? then [s.listener.m] else []
  }

  lemma {:induction false} NothingLost(s: System, actions: seq<Action>)
    requires IsRun(s, actions)
    ensures var t := After(s, actions);
      && t.posted + Unposted(t) == s.posted + Unposted(s) + Messages(actions)
      && t.given == s.given + Answers(actions)
    decreases actions
  {
    hide Step, Enabled, Unposted;
    if actions != [] {
      StepLoses(s, actions[0]);
      NothingLost(Step(s, actions[0]), actions[1..]);
    }
  }

  lemma StepLoses(s: System, a: Action)
    requires Enabled(s, a)
    ensures Step(s, a).posted + Unposted(Step(s, a)) == s.posted + Unposted(s) + (if a.Receive? then [a.m] else [])
    ensures Step(s, a).given == s.given + (if a.Answer? then [a.willQuit] else [])
  {
  }

  /** In every interleaving control is in exactly one place; the messages are posted in the
      order in which they come, none is overwritten before the main thread has dispatched
      it, and each is dispatched as what it says; each query returns the answer given to
      it. */
  lemma Handshake(actions: seq<Action>)
    requires IsRun(INITIAL, actions)
    ensures var s := After(INITIAL, actions);
      && Holders(s) == 1
      && s.posted <= Messages(actions) && |Messages(actions)| <= |s.posted| + 1
      && |s.dispatched| <= |s.posted| <= |s.dispatched| + 1
      && (forall i :: 0 <= i < |s.dispatched| ==>
            && (s.dispatched[i] == EmitQuitRequested <==> s.posted[i] == QueryEndSession)
            && (s.dispatched[i] == EmitQuit <==> s.posted[i] == EndSession(true))
            && (s.dispatched[i] == EmitQuitCancelled <==> s.posted[i] == EndSession(false)))
      && (Enabled(s, AssignEvent) ==> |s.dispatched| == |s.posted|)
      && s.given == Answers(actions)
      && s.returned <= s.given && |s.given| <= |s.returned| + 1
      && (Enabled(s, Return) && s.listener.m == QueryEndSession ==> s.given == s.returned + [s.willQuit])
      && (s.listener == Idle ==> s.returned == s.given)
  {
    hide After, Messages, Answers, IsRun;
    RunKeeps(INITIAL, actions);
    DispatchedIs(After(INITIAL, actions));
    ReturnedIs(After(INITIAL, actions));
    FromTheStart(actions);
  }

  lemma FromTheStart(actions: seq<Action>)
    requires IsRun(INITIAL, actions)
    ensures var s := After(INITIAL, actions);
      s.posted <= Messages(actions) && |Messages(actions)| <= |s.posted| + 1 && s.given == Answers(actions)
  {
    hide After, Messages, Answers, IsRun;
    NothingLost(INITIAL, actions);
    var s := After(INITIAL, actions);
    assert s.posted + Unposted(s) == Messages(actions) && s.given == Answers(actions);
  }

  lemma ReturnedIs(s: System)
    requires Invariant(s)
    ensures Holders(s) == 1 && (Enabled(s, AssignEvent) ==> |s.dispatched| == |s.posted|)
    ensures s.returned <= s.given && |s.given| <= |s.returned| + 1
    ensures Enabled(s, Return) && s.listener.m == QueryEndSession ==> s.given == s.returned + [s.willQuit]
    ensures s.listener == Idle ==> s.returned == s.given
  {
  }

  lemma DispatchedIs(s: System)
    requires Invariant(s)
    ensures |s.dispatched| <= |s.posted| <= |s.dispatched| + 1
    ensures forall i :: 0 <= i < |s.dispatched| ==>
      && (s.dispatched[i] == EmitQuitRequested <==> s.posted[i] == QueryEndSession)
      && (s.dispatched[i] == EmitQuit <==> s.posted[i] == EndSession(true))
      && (s.dispatched[i] == EmitQuitCancelled <==> s.posted[i] == EndSession(false))
  {
  }

  /** The handshake is never stuck: some step is possible besides a new message and an
      answer, unless the listener is idle or the application owes an answer. */
  lemma NeverStuck(actions: seq<Action>) returns (a: Action)
    requires IsRun(INITIAL, actions)
    ensures var s := After(INITIAL, actions);
      s.listener == Idle || s.owed || (Enabled(s, a) && !a.Receive? && !a.Answer?)
    ensures var s := After(INITIAL, actions);
      s.owed ==> forall b :: Enabled(s, Answer(b))
  {
    RunKeeps(INITIAL, actions);
    var s := After(INITIAL, actions);
    a := match s.listener
      case Received(_) => AssignEvent
      case Assigned(_) => SignalMessage
      case Woken(_) => Return
      case _ =>
        if s.responseEvent then Wake
        else match s.main
          case Looping => Poll
          case GotMessage => Dispatch
          case Emitting(_) => Emit
          case Answering => Respond
          case Finishing => Finish;
  }
}
