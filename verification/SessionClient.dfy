/** The session-management client: its state machine, the work it defers to the main
    loop, and what it owes the application and the session manager. */
module SessionClient {
  import opened SessionProtocol

  datatype State =
    | StateIdle
    | StateSaveYourself
    | StateInteractRequest
    | StateInteract
    | StateSaveYourselfDone
    | StateShutdownCancelled
    | StateConnectionClosed

  /** What happens between the client and the application, in order. */
  datatype Event = QuitRequested | Answered(willQuit: bool) | QuitCancelled | Quit | SaveState

  /** What a SaveYourself asks for; `wanted` says whether the application listened to
      requests to quit when it came. */
  datatype Demand = Demand(saveType: SaveType, shutdown: bool, style: InteractStyle, wanted: bool)
  {
    /** The application is to be asked whether it may quit. */
    predicate AsksToQuit() {
      shutdown && wanted && style != StyleNone
    }

    predicate Saves() {
      saveType != SaveGlobal
    }

    function Saved(): seq<Event> {
      if Saves() then [SaveState] else []
    }
  }

  /** The main loop's idle source of the client. */
  datatype IdleSource = NoIdle | SetProperties | PendingEvents

  /** The application owes an answer: a request to quit was the last of the two. */
  predicate Owing(events: seq<Event>) {
    events != [] &&
    var e := events[|events| - 1];
    e == QuitRequested || (!e.Answered? && Owing(events[..|events| - 1]))
  }

  /** No request to quit and no cancellation is made while an answer is owed, and
      answers are given only when owed. */
  predicate Orderly(events: seq<Event>) {
    events == [] ||
    (Orderly(events[..|events| - 1]) && MayFollow(events[..|events| - 1], events[|events| - 1]))
  }

  predicate MayFollow(events: seq<Event>, e: Event) {
    && (e == QuitRequested || e == QuitCancelled ==> !Owing(events))
    && (e.Answered? ==> Owing(events))
  }

  lemma NextEvent(events: seq<Event>, e: Event)
    ensures Owing(events + [e]) == (e == QuitRequested || (!e.Answered? && Owing(events)))
    ensures Orderly(events) && MayFollow(events, e) ==> Orderly(events + [e])
  {
    assert (events + [e])[..|events|] == events;
  }

  /** A deferred request may be taken up in any way. */
  lemma DeferredRequest(net: Net)
    requires InStep(net, Deferred)
    ensures forall errors :: InStep(net.Reply(InteractRequest(errors)), Asked)
    ensures InStep(net.Reply(SaveYourselfDone(true)), Finished)
  {
    forall errors ensures InStep(net.Reply(InteractRequest(errors)), Asked) {
      DeferredTaken(net, errors, true);
    }
    DeferredTaken(net, false, true);
  }

  /** So may one that was just received. */
  lemma ReceivedRequest(net: Net, phase: Phase)
    requires InStep(net, phase) && net.inbox != [] && net.inbox[0].SaveYourself?
    ensures phase == Ready && InStep(net.Delivered(), Deferred)
    ensures forall errors :: InStep(net.Delivered().Reply(InteractRequest(errors)), Asked)
    ensures InStep(net.Delivered().Reply(SaveYourselfDone(true)), Finished)
  {
    MessageExpected(net, phase);
    forall errors ensures InStep(net.Delivered().Reply(InteractRequest(errors)), Asked) {
      RequestTaken(net, errors, true);
    }
    RequestTaken(net, false, true);
  }

  class Client {
    var connected: bool
    var state: State

    // the current SaveYourself
    var expectingInitial: bool
    var needSaveState: bool
    var needQuitRequested: bool
    var interactErrors: bool
    var shuttingDown: bool

    // to do
    var waitingToSetInitialProperties: bool
    var waitingToEmitQuit: bool
    var waitingToEmitQuitCancelled: bool
    var waitingToSaveMyself: bool
    var idle: IdleSource

    /** The session manager and the messages in flight. */
    ghost var net: Net
    /** The application's side. */
    ghost var events: seq<Event>
    /** The last SaveYourself that was taken up or deferred. */
    ghost var demand: Demand
    /** SaveYourself messages received, answered and dropped. */
    ghost var received: nat
    ghost var done: nat
    ghost var dropped: nat
    /** Cancellations that arrived while an answer was owed, and those passed on. */
    ghost var deferred: nat
    ghost var delivered: nat
    /** A message came that the state has no place for. */
    ghost var broken: bool

    ghost function PhaseOf(): Phase
      reads this`state, this`waitingToSaveMyself
    {
      match state
      case StateInteractRequest => Asked
      case StateInteract => Asking
      case StateSaveYourselfDone => Finished
      case StateShutdownCancelled => if waitingToSaveMyself then Deferred else Ready
      case _ => Ready
    }

    /** A request is being worked on. */
    predicate Active()
      reads this`state
    {
      state == StateSaveYourself || state == StateInteractRequest || state == StateInteract
    }

    ghost predicate Valid()
      reads this`connected, this`state, this`expectingInitial, this`waitingToSetInitialProperties,
            this`waitingToEmitQuit, this`waitingToEmitQuitCancelled, this`waitingToSaveMyself, this`idle, this`net,
            this`events, this`received, this`done, this`dropped, this`deferred, this`delivered, this`broken,
            this`needSaveState, this`needQuitRequested, this`interactErrors, this`demand
    {
      && Remembering()
      && (connected ==> state != StateConnectionClosed)
      && (net.conformant ==> !broken && Scheduled() && Polite())
      && (net.conformant && connected ==> InTune())
    }

    /** Until the next one comes it is remembered what the last request asks for. */
    ghost predicate Remembering()
      reads this`needSaveState, this`needQuitRequested, this`interactErrors, this`demand
    {
      && needSaveState == demand.Saves() && needQuitRequested == demand.AsksToQuit()
      && interactErrors == (demand.style == StyleErrors)
    }

    /** Whenever something is left to do, the main loop will call back. */
    predicate Scheduled()
      reads this`connected, this`waitingToSetInitialProperties, this`waitingToEmitQuit, this`waitingToEmitQuitCancelled, this`waitingToSaveMyself, this`idle
    {
      && (waitingToEmitQuit || waitingToEmitQuitCancelled || waitingToSaveMyself ==> idle != NoIdle)
      && (idle == SetProperties ==> waitingToSetInitialProperties && connected)
    }

    ghost predicate Polite()
      reads this`connected, this`state, this`waitingToEmitQuit, this`waitingToEmitQuitCancelled, this`waitingToSaveMyself, this`events
    {
      && Orderly(events)
      && (waitingToEmitQuitCancelled ==> !Owing(events))
      && (waitingToEmitQuit ==> !connected && !waitingToEmitQuitCancelled)
      && (!connected ==> !waitingToSaveMyself && (Owing(events) ==> state == StateConnectionClosed))
    }

    /** The client follows the protocol, every SaveYourself is accounted for, and so is
        every cancellation. */
    ghost predicate InTune()
      reads this`connected, this`state, this`expectingInitial, this`waitingToSetInitialProperties,
            this`waitingToEmitQuit, this`waitingToEmitQuitCancelled, this`waitingToSaveMyself, this`idle, this`net,
            this`events, this`received, this`done, this`dropped, this`deferred, this`delivered, this`broken
    {
      && InStep(net, PhaseOf())
      && state != StateSaveYourself && state != StateConnectionClosed
      && received == done + (if Active() then 1 else 0) + (if waitingToSaveMyself then 1 else 0) + dropped
      && deferred == delivered + (if state == StateShutdownCancelled then 1 else 0)
      && (Owing(events) <==> state == StateInteract || (state == StateShutdownCancelled && !waitingToEmitQuitCancelled))
      && (waitingToSaveMyself || waitingToEmitQuitCancelled ==> state == StateShutdownCancelled)
      && (waitingToSetInitialProperties ==> idle == SetProperties && state == StateIdle)
      && (expectingInitial ==> state == StateIdle)
    }

    /** In the middle of a handler: a SaveYourself was received, or taken off the list of
        things to do, and is to be worked on. */
    ghost predicate Taking()
      reads this`connected, this`state, this`waitingToSetInitialProperties, this`waitingToEmitQuit,
            this`waitingToEmitQuitCancelled, this`waitingToSaveMyself, this`idle, this`net, this`events,
            this`received, this`done, this`dropped, this`deferred, this`delivered, this`broken
    {
      && (connected ==> state != StateConnectionClosed)
      && (net.conformant ==> connected && !broken && Scheduled() && Polite() && TakingInTune())
    }

    ghost predicate TakingInTune()
      reads this`connected, this`state, this`waitingToSetInitialProperties, this`waitingToEmitQuit,
            this`waitingToEmitQuitCancelled, this`waitingToSaveMyself, this`idle, this`net, this`events,
            this`received, this`done, this`dropped, this`deferred, this`delivered, this`broken
    {
      && (state == StateIdle || state == StateShutdownCancelled)
      && (state == StateShutdownCancelled ==> InStep(net, Deferred))
      && (forall errors :: InStep(net.Reply(InteractRequest(errors)), Asked))
      && InStep(net.Reply(SaveYourselfDone(true)), Finished)
      && received == done + 1 + dropped
      && deferred == delivered + (if state == StateShutdownCancelled then 1 else 0)
      && (Owing(events) <==> state == StateShutdownCancelled && !waitingToEmitQuitCancelled)
      && (waitingToEmitQuitCancelled ==> state == StateShutdownCancelled)
      && !waitingToSaveMyself && !waitingToSetInitialProperties
    }

    /** What does not depend on the messages and signals of an answer. */
    ghost predicate Steady()
      reads this`connected, this`waitingToSetInitialProperties, this`waitingToEmitQuit, this`waitingToEmitQuitCancelled,
            this`waitingToSaveMyself, this`idle, this`broken
    {
      && !broken && Scheduled() && !waitingToEmitQuitCancelled && !waitingToSaveMyself
      && (waitingToEmitQuit ==> !connected)
    }

    ghost predicate Quiet()
      reads this`expectingInitial, this`waitingToSetInitialProperties, this`deferred, this`delivered
    {
      !waitingToSetInitialProperties && !expectingInitial && deferred == delivered
    }

    lemma AnswerOwed()
      requires Valid() && Owing(events) && state == StateInteract
      ensures Remembering() && (net.conformant ==> Orderly(events) && connected && Steady() && Quiet())
      ensures net.conformant ==> InStep(net, Asking) && received == done + 1 + dropped
    {
      hide InStep, Orderly, Owing, Remembering;
    }

    /** A request that is finished. */
    lemma RequestFinished()
      requires state == StateSaveYourselfDone && Remembering()
      requires net.conformant ==> Orderly(events) && !Owing(events) && Steady() && Quiet()
      requires net.conformant ==> InStep(net, Finished) && received == done + dropped
      ensures Valid()
    {
      hide InStep, Orderly, Owing, Remembering;
    }

    /** The application is to be asked. */
    lemma RequestAsked()
      requires state == StateInteractRequest && Remembering()
      requires net.conformant ==> Orderly(events) && !Owing(events) && Steady() && Quiet()
      requires net.conformant ==> InStep(net, Asked) && received == done + 1 + dropped
      ensures Valid()
    {
      hide InStep, Orderly, Owing, Remembering;
    }

    lemma RequestReady()
      requires Taking() && state != StateShutdownCancelled && (net.conformant ==> !expectingInitial)
      ensures net.conformant ==> Orderly(events) && !Owing(events) && Steady() && Quiet() && received == done + 1 + dropped
      ensures net.conformant ==> InStep(net.Reply(SaveYourselfDone(true)), Finished)
      ensures net.conformant ==> forall errors :: InStep(net.Reply(InteractRequest(errors)), Asked)
    {
      hide InStep, Orderly, Owing, Net.Reply, Remembering, Demand.AsksToQuit, Demand.Saves;
    }

    constructor (expectingInitial: bool)
      ensures Valid() && connected && state == StateIdle && net.conformant && events == []
      ensures received == done == dropped == 0
      ensures !demand.AsksToQuit() && !demand.Saves()
    {
      connected, state := true, StateIdle;
      this.expectingInitial := expectingInitial;
      needSaveState, needQuitRequested, interactErrors, shuttingDown := false, false, false, false;
      waitingToSetInitialProperties, idle := true, SetProperties;
      waitingToEmitQuit, waitingToEmitQuitCancelled, waitingToSaveMyself := false, false, false;
      net := Net(View.Idle, false, false, [], [], true);
      demand := Demand(SaveGlobal, false, StyleNone, false);
      events, received, done, dropped, deferred, delivered, broken := [], 0, 0, 0, 0, 0, false;
    }

    // ----- the session manager -----

    /** The session manager sends something, according to the protocol or not. */
    ghost method ServerSends(m: ServerMessage)
      requires Valid()
      modifies this`net
      ensures Valid() && net == old(net).Send(m)
    {
      if net.conformant && connected && net.MaySend(m) { SendKeeps(net, PhaseOf(), m); }
      net := net.Send(m);
    }

    /** The session manager takes a message of the client. */
    ghost method ServerReceives()
      requires Valid() && net.outbox != []
      modifies this`net
      ensures Valid() && net == old(net).Receive()
    {
      if net.conformant && connected { ReceiveKeeps(net, PhaseOf()); }
      net := net.Receive();
    }

    // ----- messages and signals -----

    ghost method Emit(e: Event)
      modifies this`events
      ensures events == old(events) + [e]
      ensures Owing(events) == (e == QuitRequested || (!e.Answered? && Owing(old(events))))
      ensures Orderly(old(events)) && MayFollow(old(events), e) ==> Orderly(events)
    {
      NextEvent(events, e);
      events := events + [e];
    }

    ghost method Send(m: ClientMessage)
      modifies this`net, this`done
      ensures net == old(net).Reply(m) && done == old(done) + (if m.SaveYourselfDone? then 1 else 0)
      ensures net.conformant == old(net).conformant
    {
      net := net.Reply(m);
      if m.SaveYourselfDone? { done := done + 1; }
    }

    // ----- the main loop -----

    /** `update_pending_events` */
    method UpdatePendingEvents()
      modifies this`idle
      ensures idle ==
        if waitingToEmitQuit || waitingToEmitQuitCancelled || waitingToSaveMyself then
          (if old(idle) == NoIdle then PendingEvents else old(idle))
        else NoIdle
    {
      var wantIdle := waitingToEmitQuit || waitingToEmitQuitCancelled || waitingToSaveMyself;
      if wantIdle {
        if idle == NoIdle {
          idle := PendingEvents;
        }
      } else {
        idle := NoIdle;
      }
    }

    /** `sm_client_xsmp_set_initial_properties` */
    method SetInitialProperties()
      modifies this`idle, this`waitingToSetInitialProperties
      ensures !waitingToSetInitialProperties
      ensures idle == if waitingToEmitQuit || waitingToEmitQuitCancelled || waitingToSaveMyself then PendingEvents else NoIdle
    {
      idle := NoIdle;
      waitingToSetInitialProperties := false;
      UpdatePendingEvents();
    }

    /** The events of the idle source before a deferred request, and the state it finds. */
    ghost function PassedOn(): seq<Event>
      reads this`events, this`waitingToEmitQuitCancelled
    {
      if waitingToEmitQuitCancelled then events + [QuitCancelled] else events
    }

    predicate StillCancelled()
      reads this`state, this`waitingToEmitQuitCancelled
    {
      state == StateShutdownCancelled && !waitingToEmitQuitCancelled
    }

    /** The main loop runs the idle source. */
    method RunIdle()
      requires Valid() && idle != NoIdle
      modifies this
      ensures Valid() && connected == old(connected) && demand == old(demand) && shuttingDown == old(shuttingDown)
      ensures old(idle == SetProperties) ==> events == old(events) && net == old(net) && state == old(state)
      ensures old(idle == PendingEvents && waitingToEmitQuit) ==> events == old(events) + [Quit] && net == old(net)
      ensures old(idle == PendingEvents && !waitingToEmitQuit && waitingToEmitQuitCancelled) ==>
        !waitingToEmitQuitCancelled && delivered == old(delivered) + 1
    {
      if idle == SetProperties {
        SetInitialProperties();
      } else {
        IdleDoPendingEvents();
      }
    }

    /** `idle_do_pending_events` */
    method IdleDoPendingEvents()
      requires Valid() && idle == PendingEvents
      modifies this
      ensures Valid() && connected == old(connected) && demand == old(demand) && shuttingDown == old(shuttingDown)
      ensures old(waitingToEmitQuit) ==> events == old(events) + [Quit] && net == old(net)
      ensures old(!waitingToEmitQuit && waitingToEmitQuitCancelled) ==>
        !waitingToEmitQuitCancelled && delivered == old(delivered) + 1
      ensures old(!waitingToEmitQuit && (!waitingToSaveMyself || StillCancelled())) ==>
        events == old(PassedOn()) && net == old(net) && waitingToSaveMyself == old(waitingToSaveMyself)
      ensures old(!waitingToEmitQuit && waitingToSaveMyself && !StillCancelled() && demand.AsksToQuit()) ==>
        && state == StateInteractRequest && net == old(net).Reply(InteractRequest(demand.style == StyleErrors))
        && events == old(PassedOn()) && !waitingToSaveMyself
      ensures old(!waitingToEmitQuit && waitingToSaveMyself && !StillCancelled() && !demand.AsksToQuit()) ==>
        && state == StateSaveYourselfDone && net == old(net).Reply(SaveYourselfDone(true))
        && events == old(PassedOn()) + demand.Saved() && !waitingToSaveMyself
    {
      hide Valid, Remembering, Demand.AsksToQuit, Demand.Saves;
      if waitingToEmitQuit {
        PassOnQuit();
        return;
      }
      DoPending();
    }

    /** A cancellation is passed on, then a deferred request is taken up. */
    method DoPending()
      requires Valid() && idle == PendingEvents && !waitingToEmitQuit
      modifies this`idle, this`waitingToEmitQuitCancelled, this`waitingToSaveMyself, this`events, this`delivered, this`state,
               this`net, this`done
      ensures Valid()
      ensures old(waitingToEmitQuitCancelled) ==> !waitingToEmitQuitCancelled && delivered == old(delivered) + 1
      ensures old(!waitingToSaveMyself || StillCancelled()) ==>
        events == old(PassedOn()) && net == old(net) && waitingToSaveMyself == old(waitingToSaveMyself)
      ensures old(waitingToSaveMyself && !StillCancelled() && demand.AsksToQuit()) ==>
        && state == StateInteractRequest && net == old(net).Reply(InteractRequest(demand.style == StyleErrors))
        && events == old(PassedOn()) && !waitingToSaveMyself
      ensures old(waitingToSaveMyself && !StillCancelled() && !demand.AsksToQuit()) ==>
        && state == StateSaveYourselfDone && net == old(net).Reply(SaveYourselfDone(true))
        && events == old(PassedOn()) + demand.Saved() && !waitingToSaveMyself
    {
      hide InStep, Orderly, Owing, Net.Reply, Remembering, Demand.AsksToQuit, Demand.Saves, Demand.Saved;
      idle := NoIdle;
      if waitingToEmitQuitCancelled {
        PassOnCancellation();
      }
      if waitingToSaveMyself {
        waitingToSaveMyself := false;
        if net.conformant && connected {
          DeferredRequest(net);
        }
        DoSaveYourself();
      }
    }

    /** The end of the session is passed on; nothing else is. */
    method PassOnQuit()
      requires Valid() && waitingToEmitQuit
      modifies this`idle, this`waitingToEmitQuit, this`events
      ensures Valid() && idle == NoIdle && !waitingToEmitQuit && events == old(events) + [Quit]
    {
      hide InStep, Orderly, Owing, Remembering;
      idle := NoIdle;
      waitingToEmitQuit := false;
      Emit(Quit);
    }

    method PassOnCancellation()
      modifies this`waitingToEmitQuitCancelled, this`events, this`delivered, this`state
      ensures !waitingToEmitQuitCancelled && state == StateIdle && delivered == old(delivered) + 1
      ensures events == old(events) + [QuitCancelled] && Owing(events) == Owing(old(events))
      ensures Orderly(old(events)) && !Owing(old(events)) ==> Orderly(events)
    {
      hide Orderly, Owing;
      waitingToEmitQuitCancelled := false;
      Emit(QuitCancelled);
      delivered := delivered + 1;
      state := StateIdle;
    }

    /** The application still owes the answer to an earlier request. */
    method PutOff()
      requires Taking() && Remembering() && state == StateShutdownCancelled && (net.conformant ==> !expectingInitial)
      modifies this`waitingToSaveMyself, this`idle
      ensures Valid() && waitingToSaveMyself
    {
      hide InStep, Orderly, Owing, Net.Reply, Remembering, Demand.AsksToQuit, Demand.Saves;
      waitingToSaveMyself := true;
      UpdatePendingEvents();
    }

    /** `do_save_yourself` */
    method DoSaveYourself()
      requires Taking() && Remembering() && (net.conformant ==> !expectingInitial)
      modifies this`waitingToSaveMyself, this`idle, this`state, this`net, this`done, this`events
      ensures Valid()
      ensures old(state) == StateShutdownCancelled ==>
        waitingToSaveMyself && state == old(state) && net == old(net) && events == old(events)
      ensures old(state) != StateShutdownCancelled && demand.AsksToQuit() ==>
        && state == StateInteractRequest && net == old(net).Reply(InteractRequest(demand.style == StyleErrors))
        && events == old(events)
      ensures old(state) != StateShutdownCancelled && !demand.AsksToQuit() ==>
        && state == StateSaveYourselfDone && net == old(net).Reply(SaveYourselfDone(true))
        && events == old(events) + demand.Saved()
      ensures old(state) != StateShutdownCancelled ==> waitingToSaveMyself == old(waitingToSaveMyself)
    {
      hide InStep, Orderly, Owing, Valid, Steady, Quiet, Taking, Net.Reply;
      if state == StateShutdownCancelled {
        PutOff();
        return;
      }
      RequestReady();
      if needQuitRequested {
        state := StateInteractRequest;
        Send(InteractRequest(interactErrors));
        RequestAsked();
        return;
      }
      if needSaveState {
        state := StateSaveYourself;
        Emit(SaveState);
      }
      Send(SaveYourselfDone(true));
      state := StateSaveYourselfDone;
      RequestFinished();
    }

    // ----- the session manager's messages -----

    /** `fix_broken_state` */
    method FixBrokenState(sendInteractDone: bool, sendSaveYourselfDone: bool)
      modifies this`waitingToSaveMyself, this`idle, this`state, this`net, this`done, this`broken
      ensures broken && !waitingToSaveMyself && net.conformant == old(net).conformant
      ensures state == if sendSaveYourselfDone then StateSaveYourselfDone else StateIdle
      ensures var n := if sendInteractDone then old(net).Reply(InteractDone(false)) else old(net);
        net == if sendSaveYourselfDone then n.Reply(SaveYourselfDone(true)) else n
    {
      broken := true;
      waitingToSaveMyself := false;
      UpdatePendingEvents();
      if sendInteractDone {
        Send(InteractDone(false));
      }
      if sendSaveYourselfDone {
        Send(SaveYourselfDone(true));
      }
      state := if sendSaveYourselfDone then StateSaveYourselfDone else StateIdle;
    }

    /** The first SaveYourself after the client has registered, when it asks for nothing. */
    predicate Initial(d: Demand, fast: bool)
      reads this`expectingInitial
    {
      expectingInitial && d.saveType == SaveLocal && d.style == StyleNone && !d.shutdown && !fast
    }

    /** `xsmp_save_yourself`; `wanted` says that the application listens to requests to
        quit. */
    method XsmpSaveYourself(saveType: SaveType, shutdown: bool, style: InteractStyle, fast: bool, wanted: bool)
      requires Valid() && connected && net.inbox != [] && net.inbox[0] == SaveYourself(saveType, shutdown, style, fast)
      modifies this
      ensures Valid() && connected && received == old(received) + 1
      ensures var d := Demand(saveType, shutdown, style, wanted);
        var took := !old(Initial(d, fast)) && (old(state) == StateIdle || old(state) == StateShutdownCancelled);
        && (took ==> demand == d && shuttingDown == shutdown)
        && (!took ==> demand == old(demand) && shuttingDown == old(shuttingDown) && state == StateSaveYourselfDone
                      && events == old(events) && net == old(net).Delivered().Reply(SaveYourselfDone(true)))
        && (took && old(state) == StateShutdownCancelled ==>
             waitingToSaveMyself && state == StateShutdownCancelled && events == old(events) && net == old(net).Delivered())
        && (took && old(state) == StateIdle && d.AsksToQuit() ==>
             && state == StateInteractRequest && events == old(events)
             && net == old(net).Delivered().Reply(InteractRequest(style == StyleErrors)))
        && (took && old(state) == StateIdle && !d.AsksToQuit() ==>
             && state == StateSaveYourselfDone && events == old(events) + d.Saved()
             && net == old(net).Delivered().Reply(SaveYourselfDone(true)))
    {
      hide TakingInTune, InTune, Polite, Scheduled, Remembering;
      var taken := BeginRequest();
      if !taken {
        return;
      }
      if expectingInitial {
        expectingInitial := false;
        if saveType == SaveLocal && style == StyleNone && !shutdown && !fast {
          AnswerInitial();
          return;
        }
      }
      Accept(saveType, shutdown, style, wanted);
    }

    /** What the request asks for. */
    method Remember(saveType: SaveType, shutdown: bool, style: InteractStyle, wanted: bool)
      requires Taking()
      modifies this`needSaveState, this`needQuitRequested, this`interactErrors, this`shuttingDown, this`demand
      ensures Taking() && Remembering() && demand == Demand(saveType, shutdown, style, wanted) && shuttingDown == shutdown
    {
      hide Taking;
      needSaveState := saveType != SaveGlobal;
      needQuitRequested := shutdown && wanted && style != StyleNone;
      interactErrors := style == StyleErrors;
      shuttingDown := shutdown;
      demand := Demand(saveType, shutdown, style, wanted);
    }

    /** A request, worked on at once unless the application has not been
        told of a cancellation yet. */
    method Accept(saveType: SaveType, shutdown: bool, style: InteractStyle, wanted: bool)
      requires Taking() && (net.conformant ==> !expectingInitial)
      modifies this`needSaveState, this`needQuitRequested, this`interactErrors, this`shuttingDown, this`demand,
               this`waitingToSaveMyself, this`idle, this`state, this`net, this`done, this`events
      ensures Valid() && demand == Demand(saveType, shutdown, style, wanted) && shuttingDown == shutdown
      ensures old(state) == StateShutdownCancelled ==>
        waitingToSaveMyself && state == old(state) && events == old(events) && net == old(net)
      ensures old(state) != StateShutdownCancelled && demand.AsksToQuit() ==>
        state == StateInteractRequest && events == old(events) && net == old(net).Reply(InteractRequest(style == StyleErrors))
      ensures old(state) != StateShutdownCancelled && !demand.AsksToQuit() ==>
        && state == StateSaveYourselfDone && events == old(events) + demand.Saved()
        && net == old(net).Reply(SaveYourselfDone(true))
    {
      hide Taking, Valid, Remembering;
      Remember(saveType, shutdown, style, wanted);
      DoSaveYourself();
    }

    /** The beginning of `xsmp_save_yourself`: a request in the wrong state is answered
        at once. */
    method BeginRequest() returns (taken: bool)
      requires Valid() && connected && net.inbox != [] && net.inbox[0].SaveYourself?
      modifies this`net, this`received, this`waitingToSaveMyself, this`waitingToSetInitialProperties, this`idle, this`state, this`done, this`broken
      ensures received == old(received) + 1
      ensures taken <==> old(state) == StateIdle || old(state) == StateShutdownCancelled
      ensures Remembering() && expectingInitial == old(expectingInitial)
      ensures if taken then Taking() && state == old(state) && net == old(net).Delivered()
              else Valid() && broken && state == StateSaveYourselfDone && net == old(net).Delivered().Reply(SaveYourselfDone(true))
      ensures taken && net.conformant && expectingInitial ==> state == StateIdle
    {
      hide InStep, Orderly, Owing, Remembering;
      if net.conformant { ReceivedRequest(net, PhaseOf()); }
      net := net.Delivered();
      received := received + 1;
      taken := state == StateIdle || state == StateShutdownCancelled;
      if !taken {
        FixBrokenState(false, true);
        return;
      }
      if waitingToSetInitialProperties {
        SetInitialProperties();
      }
    }

    /** The answer to the first SaveYourself, which asks for nothing. */
    method AnswerInitial()
      requires Taking() && Remembering() && (net.conformant ==> state == StateIdle && !expectingInitial)
      modifies this`state, this`net, this`done
      ensures Valid() && state == StateSaveYourselfDone && net == old(net).Reply(SaveYourselfDone(true))
    {
      hide InStep, Orderly, Owing, Remembering;
      Send(SaveYourselfDone(true));
      state := StateSaveYourselfDone;
    }

    /** `xsmp_interact` */
    method XsmpInteract()
      requires Valid() && connected && net.inbox != [] && net.inbox[0] == Interact
      modifies this
      ensures Valid() && connected && demand == old(demand) && shuttingDown == old(shuttingDown)
      ensures old(state) == StateInteractRequest ==>
        state == StateInteract && events == old(events) + [QuitRequested] && net == old(net).Delivered()
      ensures old(state) != StateInteractRequest ==>
        && broken && events == old(events)
        && net == old(net).Delivered().Reply(InteractDone(false)).Reply(SaveYourselfDone(true))
    {
      hide InStep, Orderly, Owing, Remembering;
      if net.conformant { MessageExpected(net, PhaseOf()); InteractTaken(net); }
      net := net.Delivered();
      if state != StateInteractRequest {
        FixBrokenState(true, true);
        return;
      }
      state := StateInteract;
      Emit(QuitRequested);
    }

    /** `xsmp_save_complete` */
    method XsmpSaveComplete()
      requires Valid() && connected && net.inbox != [] && net.inbox[0] == SaveComplete
      modifies this
      ensures Valid() && connected && state == StateIdle && events == old(events) && net == old(net).Delivered()
      ensures demand == old(demand) && shuttingDown == old(shuttingDown)
      ensures old(state) != StateSaveYourselfDone ==> broken
    {
      hide InStep, Orderly, Owing, Remembering;
      if net.conformant { MessageExpected(net, PhaseOf()); EndingTaken(net); }
      net := net.Delivered();
      if state == StateSaveYourselfDone {
        state := StateIdle;
      } else {
        FixBrokenState(false, false);
      }
    }

    /** `xsmp_shutdown_cancelled` */
    method XsmpShutdownCancelled()
      requires Valid() && connected && net.inbox != [] && net.inbox[0] == ShutdownCancelled
      modifies this
      ensures Valid() && connected && !shuttingDown && demand == old(demand)
      ensures old(state) == StateSaveYourselfDone ==> state == StateIdle && events == old(events) + [QuitCancelled]
      ensures old(state) == StateInteract ==> state == StateShutdownCancelled && events == old(events) && deferred == old(deferred) + 1
      ensures old(state) == StateShutdownCancelled ==>
        state == old(state) && !waitingToSaveMyself && events == old(events)
        && dropped == old(dropped) + (if old(waitingToSaveMyself) then 1 else 0)
      ensures old(state) == StateInteractRequest ==> state == StateIdle && events == old(events)
      ensures old(state) != StateShutdownCancelled ==> dropped == old(dropped)
      ensures net == if old(state) == StateSaveYourselfDone || old(state) == StateShutdownCancelled
                     then old(net).Delivered() else old(net).Delivered().Reply(SaveYourselfDone(false))
    {
      hide TakingInTune, InTune, Polite, Scheduled, Remembering;
      shuttingDown := false;
      if state == StateSaveYourselfDone {
        CancelFinished();
      } else if state == StateShutdownCancelled {
        CancelDeferred();
      } else {
        CancelRequest();
      }
    }

    /** The request was finished: the session manager agrees to cancel the shutdown. */
    method CancelFinished()
      requires Valid() && connected && net.inbox != [] && net.inbox[0] == ShutdownCancelled && state == StateSaveYourselfDone
      modifies this`net, this`state, this`events
      ensures Valid() && state == StateIdle && events == old(events) + [QuitCancelled] && net == old(net).Delivered()
    {
      hide InStep, Orderly, Owing, Remembering;
      if net.conformant { EndingTaken(net); }
      net := net.Delivered();
      state := StateIdle;
      Emit(QuitCancelled);
    }

    /** The application has not been told of an earlier cancellation yet: a request that
        was deferred since then is forgotten. */
    method CancelDeferred()
      requires Valid() && connected && net.inbox != [] && net.inbox[0] == ShutdownCancelled && state == StateShutdownCancelled
      modifies this`net, this`dropped, this`waitingToSaveMyself, this`idle
      ensures Valid() && !waitingToSaveMyself && dropped == old(dropped) + (if old(waitingToSaveMyself) then 1 else 0)
      ensures net == old(net).Delivered()
    {
      hide InStep, Orderly, Owing, Remembering;
      if net.conformant {
        MessageExpected(net, PhaseOf());
        CancelTaken(net, PhaseOf());
      }
      net := net.Delivered();
      if waitingToSaveMyself { dropped := dropped + 1; }
      waitingToSaveMyself := false;
      UpdatePendingEvents();
    }

    /** The request is answered; the application is told later if it is interacting. */
    method CancelRequest()
      requires Valid() && connected && net.inbox != [] && net.inbox[0] == ShutdownCancelled
      requires state != StateSaveYourselfDone && state != StateShutdownCancelled
      modifies this`net, this`done, this`state, this`deferred
      ensures Valid() && net == old(net).Delivered().Reply(SaveYourselfDone(false))
      ensures state == if old(state) == StateInteract then StateShutdownCancelled else StateIdle
      ensures deferred == old(deferred) + (if old(state) == StateInteract then 1 else 0)
    {
      hide InStep, Orderly, Owing, Remembering;
      if net.conformant {
        MessageExpected(net, PhaseOf());
        CancelTaken(net, PhaseOf());
      }
      net := net.Delivered();
      Send(SaveYourselfDone(false));
      if state == StateInteract {
        state := StateShutdownCancelled;
        deferred := deferred + 1;
      } else {
        state := StateIdle;
      }
    }

    /** `xsmp_die` and `sm_client_xsmp_disconnect` */
    method XsmpDie()
      requires Valid() && connected && net.inbox != [] && net.inbox[0] == Die
      modifies this
      ensures Valid() && !connected && state == StateConnectionClosed && events == old(events) + [Quit]
      ensures demand == old(demand) && net == old(net).Delivered() && !waitingToSaveMyself
    {
      hide InStep, Remembering;
      net := net.Delivered();
      connected := false;
      state := StateConnectionClosed;
      waitingToSaveMyself := false;
      UpdatePendingEvents();
      Emit(Quit);
    }

    // ----- the application -----

    /** `sm_client_xsmp_will_quit`, the application's answer. */
    method WillQuit(willQuit: bool)
      requires Valid() && Owing(events)
      modifies this
      ensures Valid() && !Owing(events) && demand == old(demand) && shuttingDown == old(shuttingDown)
      ensures connected == old(connected) && waitingToSaveMyself == old(waitingToSaveMyself)
      ensures old(state) != StateInteract ==> state == old(state) && net == old(net) && events == old(events) + [Answered(willQuit)]
      ensures old(state) == StateConnectionClosed ==> waitingToEmitQuit && idle != NoIdle
      ensures old(state) == StateShutdownCancelled ==>
        waitingToEmitQuitCancelled && idle != NoIdle && waitingToEmitQuit == old(waitingToEmitQuit)
      ensures old(state) == StateInteract ==>
        && state == StateSaveYourselfDone
        && net == old(net).Reply(InteractDone(!willQuit)).Reply(SaveYourselfDone(willQuit))
        && events == old(events) + [Answered(willQuit)] + (if willQuit then demand.Saved() else [])
    {
      hide InStep, Orderly, Owing, Remembering;
      if state == StateConnectionClosed {
        Emit(Answered(willQuit));
        waitingToEmitQuit := true;
        UpdatePendingEvents();
        return;
      }
      if state == StateShutdownCancelled {
        Emit(Answered(willQuit));
        waitingToEmitQuitCancelled := true;
        UpdatePendingEvents();
        return;
      }
      if state != StateInteract {
        Emit(Answered(willQuit));
        return;
      }
      AnswerInteract(willQuit);
    }

    /** The answer while interacting. */
    method AnswerInteract(willQuit: bool)
      requires Valid() && Owing(events) && state == StateInteract
      modifies this`state, this`net, this`done, this`events
      ensures Valid() && !Owing(events) && state == StateSaveYourselfDone
      ensures net == old(net).Reply(InteractDone(!willQuit)).Reply(SaveYourselfDone(willQuit))
      ensures events == old(events) + [Answered(willQuit)] + (if willQuit then demand.Saved() else [])
    {
      hide InStep, Orderly, Owing, Net.Reply, Valid, Steady, Quiet;
      AnswerOwed();
      if net.conformant { AnswerSent(net, !willQuit, willQuit); }
      Emit(Answered(willQuit));
      Send(InteractDone(!willQuit));
      if willQuit && needSaveState {
        state := StateSaveYourself;
        Emit(SaveState);
      }
      Send(SaveYourselfDone(willQuit));
      state := StateSaveYourselfDone;
      RequestFinished();
    }
  }
}
