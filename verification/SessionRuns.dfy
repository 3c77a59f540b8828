/** Whole requests to shut down, from the session manager's SaveYourself to the client's
    answer. */
module SessionRuns {
  import opened SessionProtocol
  import opened SessionClient

  /** What the application is asked in a request that it answers with `willQuit`. */
  function Asked(willQuit: bool, saveType: SaveType): (r: seq<Event>)
    ensures SaveState in r <==> willQuit && (saveType == SaveLocal || saveType == SaveBoth)
    ensures |r| >= 2 && r[0] == QuitRequested && r[1] == Answered(willQuit)
  {
    [QuitRequested, Answered(willQuit)] + (if willQuit && saveType != SaveGlobal then [SaveState] else [])
  }

  /** From the client's request to interact on: the session manager allows it, the
      application is asked and answers.  It is asked to save exactly if it agrees to quit
      and the SaveYourself was for a local save or for both. */
  method Interaction(c: Client, willQuit: bool)
    requires c.Valid() && c.connected && c.state == StateInteractRequest && c.net.inbox == []
    requires exists errors :: c.net.outbox == [InteractRequest(errors)]
    modifies c
    ensures c.Valid() && c.state == StateSaveYourselfDone
    ensures c.events == old(c.events) + Asked(willQuit, old(c.demand.saveType))
    ensures c.net.outbox == [InteractDone(!willQuit), SaveYourselfDone(willQuit)]
    ensures old(c.net.conformant && !c.net.dead && c.net.view == Saving) ==> c.net.conformant
  {
    hide InStep, Orderly, Owing, Client.Valid;
    c.ServerReceives();
    c.ServerSends(Interact);
    c.XsmpInteract();
    LastAsked(old(c.events));
    c.WillQuit(willQuit);
  }

  lemma LastAsked(events: seq<Event>)
    ensures Owing(events + [QuitRequested])
  {
    NextEvent(events, QuitRequested);
  }

  /** A shutdown whose SaveYourself finds the client idle. */
  method Shutdown(c: Client, saveType: SaveType, style: InteractStyle, fast: bool, willQuit: bool)
    requires c.Valid() && c.connected && c.state == StateIdle && !c.expectingInitial && style != StyleNone
    requires c.net.inbox == [SaveYourself(saveType, true, style, fast)] && c.net.outbox == []
    modifies c
    ensures c.Valid() && c.state == StateSaveYourselfDone
    ensures c.events == old(c.events) + Asked(willQuit, saveType)
    ensures c.net.outbox == [InteractDone(!willQuit), SaveYourselfDone(willQuit)]
  {
    hide InStep, Orderly, Owing, Client.Valid;
    c.XsmpSaveYourself(saveType, true, style, fast, true);
    Interaction(c, willQuit);
  }

  /** A shutdown that comes while the application still owes the answer to one that was
      cancelled: it waits until that is given and the application knows of the
      cancellation, and then the application is asked again. */
  method DeferredShutdown(c: Client, saveType: SaveType, style: InteractStyle, fast: bool, first: bool, willQuit: bool)
    requires c.Valid() && c.net.conformant && c.connected && c.state == StateShutdownCancelled && Owing(c.events)
    requires c.net.inbox == [SaveYourself(saveType, true, style, fast)] && c.net.outbox == [] && style != StyleNone
    modifies c
    ensures c.Valid() && c.state == StateSaveYourselfDone
    ensures c.events == old(c.events) + [Answered(first), QuitCancelled] + Asked(willQuit, saveType)
    ensures c.net.outbox == [InteractDone(!willQuit), SaveYourselfDone(willQuit)]
  {
    hide InStep, Orderly, Owing, Client.Remembering;
    c.XsmpSaveYourself(saveType, true, style, fast, true);
    c.WillQuit(first);
    c.IdleDoPendingEvents();
    Interaction(c, willQuit);
  }
}
