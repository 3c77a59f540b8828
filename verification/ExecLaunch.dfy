/** The launch loop: commands are launched until the documents are used up. */
module ExecLaunch {
  import opened Wrappers
  import opened ShellWords
  import opened ExecExpansion
  import opened Sequences

  /** How `egg_desktop_file_launchv` ended: it refused the documents, used them all, could
      not make a command, or could not start one. */
  datatype Ending = NotLaunchable | AllUsed | NoCommand | SpawnFailed

  /** `g_shell_parse_argv` succeeds. */
  predicate Parses(command: string) {
    End(Plain, command) == Plain && Words(Read(Plain, command)) != []
  }

  function Flatten(batches: seq<seq<string>>): seq<string> {
    if batches == [] then [] else Flatten(batches[..|batches| - 1]) + batches[|batches| - 1]
  }

  lemma FlattenNext(batches: seq<seq<string>>, batch: seq<string>)
    ensures Flatten(batches + [batch]) == Flatten(batches) + batch
  {
    assert (batches + [batch])[..|batches|] == batches;
  }

  /** The documents so far handed to commands, in batches, and the ones left: nothing is
      lost, repeated or reordered; each command takes a document if the Exec key reads a
      code for documents, and none does otherwise. */
  ghost predicate Handed(exec: string, docs: seq<string>, batches: seq<seq<string>>, rest: seq<string>) {
    && Flatten(batches) + rest == docs
    && (ReadsDocuments(NO_FLAGS, exec) && docs != [] ==> |batches| + |rest| <= |docs| && forall i :: 0 <= i < |batches| ==> batches[i] != [])
    && (!ReadsDocuments(NO_FLAGS, exec) && docs != [] ==> rest == docs && forall i :: 0 <= i < |batches| ==> batches[i] == [])
  }

  lemma HandedNext(file: DesktopFile, exec: string, docs: seq<string>, batches: seq<seq<string>>, rest: seq<string>)
    requires Handed(exec, docs, batches, rest) && (docs != [] ==> rest != [])
    ensures var left := Expand(file, NO_FLAGS, exec, rest).1;
      && |left| <= |rest|
      && Handed(exec, docs, batches + [rest[..|rest| - |left|]], left)
      && Flatten(batches) + rest[..|rest| - |left|] + left == docs
  {
    var left := Expand(file, NO_FLAGS, exec, rest).1;
    ExpandUses(file, NO_FLAGS, exec, rest);
    var used := rest[..|rest| - |left|];
    assert rest == used + left;
    Regroup(Flatten(batches), used, left);
    FlattenNext(batches, used);
  }

  // ----- translating the documents -----

  /** What the path and URI functions make of a document. */
  datatype Uris = Uris(isAbsolute: string -> bool, toUri: string -> Option<string>, toPath: string -> Option<string>)
  {
    function Translate(acceptsUris: bool, document: string): Option<string> {
      if acceptsUris == !isAbsolute(document) then Some(document)
      else if acceptsUris then toUri(document)
      else toPath(document)
    }
  }

  /** The documents that can be translated, in order. */
  function Translated(uris: Uris, acceptsUris: bool, documents: seq<string>): seq<string> {
    if documents == [] then []
    else
      (match uris.Translate(acceptsUris, documents[0]) case Some(d) => [d] case None => [])
      + Translated(uris, acceptsUris, documents[1..])
  }

  function Reversed(s: seq<string>): seq<string> {
    if s == [] then [] else Reversed(s[1..]) + [s[0]]
  }

  /** What the program gets for a document: a path stays for a program that takes paths
      and a URI for one that takes URIs, a path becomes a URI for the latter, a URI a path
      for the former, and None says that it cannot. */
  predicate Converts(uris: Uris, acceptsUris: bool, document: string, r: Option<string>) {
    && (!acceptsUris && uris.isAbsolute(document) ==> r == Some(document))
    && (acceptsUris && !uris.isAbsolute(document) ==> r == Some(document))
    && (acceptsUris && uris.isAbsolute(document) ==> r == uris.toUri(document))
    && (!acceptsUris && !uris.isAbsolute(document) ==> r == uris.toPath(document))
  }

  /** `docs` are the documents at the places `at`, in order, each as the program gets it;
      those at other places cannot be converted. */
  ghost predicate AreConverted(uris: Uris, acceptsUris: bool, documents: seq<string>, at: seq<nat>, docs: seq<string>) {
    && |at| == |docs|
    && (forall j, k :: 0 <= j < k < |at| ==> at[j] < at[k])
    && (forall k :: 0 <= k < |at| ==> at[k] < |documents| && Converts(uris, acceptsUris, documents[at[k]], Some(docs[k])))
    && (forall i: nat :: i < |documents| && i !in at ==> Converts(uris, acceptsUris, documents[i], None))
  }

  lemma TranslateConverts(uris: Uris, acceptsUris: bool, document: string)
    ensures Converts(uris, acceptsUris, document, uris.Translate(acceptsUris, document))
  {
  }

  lemma PlaceAdded(uris: Uris, acceptsUris: bool, documents: seq<string>, last: string, at: seq<nat>, docs: seq<string>, d: string)
    requires AreConverted(uris, acceptsUris, documents, at, docs) && Converts(uris, acceptsUris, last, Some(d))
    ensures AreConverted(uris, acceptsUris, documents + [last], at + [|documents|], docs + [d])
  {
    hide Converts;
    OtherPlaces(uris, acceptsUris, documents, last, at, at + [|documents|]);
  }

  lemma PlaceLeftOut(uris: Uris, acceptsUris: bool, documents: seq<string>, last: string, at: seq<nat>, docs: seq<string>)
    requires AreConverted(uris, acceptsUris, documents, at, docs) && Converts(uris, acceptsUris, last, None)
    ensures AreConverted(uris, acceptsUris, documents + [last], at, docs)
  {
    hide Converts;
    OtherPlaces(uris, acceptsUris, documents, last, at, at);
  }

  lemma OtherPlaces(uris: Uris, acceptsUris: bool, documents: seq<string>, last: string, before: seq<nat>, at: seq<nat>)
    requires forall i: nat :: i < |documents| && i !in before ==> Converts(uris, acceptsUris, documents[i], None)
    requires at == before + [|documents|] || (at == before && Converts(uris, acceptsUris, last, None))
    ensures forall i: nat :: i < |documents| + 1 && i !in at ==> Converts(uris, acceptsUris, (documents + [last])[i], None)
  {
    hide Converts;
  }

  lemma {:induction false} TranslatedPlaces(uris: Uris, acceptsUris: bool, documents: seq<string>) returns (at: seq<nat>)
    ensures AreConverted(uris, acceptsUris, documents, at, Translated(uris, acceptsUris, documents))
    decreases |documents|
  {
    hide Converts, Uris.Translate;
    at := [];
    if documents != [] {
      hide AreConverted;
      var before, last := documents[..|documents| - 1], documents[|documents| - 1];
      assert before + [last] == documents;
      at := TranslatedPlaces(uris, acceptsUris, before);
      TranslateConverts(uris, acceptsUris, last);
      TranslatedLast(uris, acceptsUris, before, last);
      var docs, r := Translated(uris, acceptsUris, before), uris.Translate(acceptsUris, last);
      if r.Some? {
        PlaceAdded(uris, acceptsUris, before, last, at, docs, r.value);
        at := at + [|before|];
      } else {
        PlaceLeftOut(uris, acceptsUris, before, last, at, docs);
        assert docs + [] == docs;
      }
    }
  }

  lemma {:induction false} TranslatedLast(uris: Uris, acceptsUris: bool, documents: seq<string>, last: string)
    ensures Translated(uris, acceptsUris, documents + [last]) ==
      Translated(uris, acceptsUris, documents) + (match uris.Translate(acceptsUris, last) case Some(d) => [d] case None => [])
    decreases |documents|
  {
    if documents == [] {
      assert documents + [last] == [last] && [last][1..] == [];
    } else {
      assert (documents + [last])[1..] == documents[1..] + [last];
      TranslatedLast(uris, acceptsUris, documents[1..], last);
    }
  }

  /** `translate_document_list`: the list is built back to front and reversed. */
  method TranslateDocumentList(uris: Uris, acceptsUris: bool, documents: seq<string>) returns (docs: seq<string>)
    ensures docs == Translated(uris, acceptsUris, documents)
    ensures exists at :: AreConverted(uris, acceptsUris, documents, at, docs)
  {
    ghost var at := TranslatedPlaces(uris, acceptsUris, documents);
    hide AreConverted;
    var list: seq<string> := [];
    for i := 0 to |documents|
      invariant Reversed(list) + Translated(uris, acceptsUris, documents[i..]) == Translated(uris, acceptsUris, documents)
    {
      assert documents[i..][1..] == documents[i + 1..];
      var d := uris.Translate(acceptsUris, documents[i]);
      if d.Some? {
        assert ([d.value] + list)[1..] == list;
        Regroup(Reversed(list), [d.value], Translated(uris, acceptsUris, documents[i + 1..]));
        list := [d.value] + list;
      } else {
        Regroup(Reversed(list), [], Translated(uris, acceptsUris, documents[i + 1..]));
        assert Reversed(list) + [] == Reversed(list);
      }
    }
    assert documents[|documents|..] == [];
    docs := Reversed(list);
    assert docs + [] == docs;
  }

  /** A list whose documents can all be translated keeps its length, and each document
      its place. */
  lemma {:induction false} AllTranslated(uris: Uris, acceptsUris: bool, documents: seq<string>)
    requires forall i :: 0 <= i < |documents| ==> uris.Translate(acceptsUris, documents[i]).Some?
    ensures var docs := Translated(uris, acceptsUris, documents);
      |docs| == |documents| && forall i :: 0 <= i < |docs| ==> Some(docs[i]) == uris.Translate(acceptsUris, documents[i])
    decreases documents
  {
    if documents != [] {
      var rest := documents[1..];
      assert forall i :: 0 <= i < |rest| ==> rest[i] == documents[i + 1];
      AllTranslated(uris, acceptsUris, rest);
      var docs := Translated(uris, acceptsUris, documents);
      assert docs == [uris.Translate(acceptsUris, documents[0]).value] + Translated(uris, acceptsUris, rest);
      forall i | 0 <= i < |docs| ensures Some(docs[i]) == uris.Translate(acceptsUris, documents[i]) {
        if i > 0 { assert docs[i] == Translated(uris, acceptsUris, rest)[i - 1] && documents[i] == rest[i - 1]; }
      }
    }
  }

  predicate AcceptsUris(exec: string) {
    LoadCode(exec) == Some('U') || LoadCode(exec) == Some('u')
  }

  /** A program takes URIs exactly if the first code for documents is one for URIs. */
  lemma AcceptsUrisIf(exec: string)
    ensures AcceptsUris(exec) <==>
      exists i: nat :: FirstDocumentCode(exec, i) && (exec[i + 1] == 'U' || exec[i + 1] == 'u')
  {
    LoadCodeIsFirst(exec);
    if i: nat :| FirstDocumentCode(exec, i) {
      assert forall j: nat :: FirstDocumentCode(exec, j) ==> j == i;
    }
  }

  // ----- the passes of the loop -----

  /** The documents left after `n` passes. */
  function Remaining(file: DesktopFile, exec: string, docs: seq<string>, n: nat): seq<string>
    decreases n
  {
    if n == 0 then docs else Remaining(file, exec, Expand(file, NO_FLAGS, exec, docs).1, n - 1)
  }

  lemma {:induction false} RemainingNext(file: DesktopFile, exec: string, docs: seq<string>, n: nat)
    ensures Remaining(file, exec, docs, n + 1) == Expand(file, NO_FLAGS, exec, Remaining(file, exec, docs, n)).1
    decreases n
  {
    if n > 0 { RemainingNext(file, exec, Expand(file, NO_FLAGS, exec, docs).1, n - 1); }
  }

  /** The command for these documents is there and can be read as words. */
  predicate Startable(file: DesktopFile, exec: string, terminal: Terminal, docs: seq<string>) {
    var command := CommandFor(file, exec, terminal, docs);
    command.Some? && Parses(command.value)
  }

  /** Pass `n` is followed by another one. */
  predicate GoesOn(file: DesktopFile, exec: string, terminal: Terminal, docs: seq<string>, spawns: nat -> bool, n: nat) {
    Startable(file, exec, terminal, Remaining(file, exec, docs, n)) && spawns(n) && Remaining(file, exec, docs, n + 1) != []
  }

  /** What the caller has to see to: something ends the loop. */
  ghost predicate Ends(file: DesktopFile, exec: string, terminal: Terminal, docs: seq<string>, spawns: nat -> bool) {
    docs == [] || ReadsDocuments(NO_FLAGS, exec) || !Startable(file, exec, terminal, docs) || exists n: nat :: !spawns(n)
  }

  /** The loop goes round for ever exactly if the Exec key reads no code for the documents,
      the command can be read and every launch succeeds. */
  lemma GoesOnForever(file: DesktopFile, exec: string, terminal: Terminal, docs: seq<string>, spawns: nat -> bool)
    ensures (forall n: nat :: GoesOn(file, exec, terminal, docs, spawns, n)) <==> !Ends(file, exec, terminal, docs, spawns)
  {
    hide Expand, Startable;
    if docs == [] {
      RemainingNext(file, exec, docs, 0);
      ExpandUses(file, NO_FLAGS, exec, docs);
      assert !GoesOn(file, exec, terminal, docs, spawns, 0);
    } else if ReadsDocuments(NO_FLAGS, exec) {
      PassesUse(file, exec, docs, |docs|);
      assert !GoesOn(file, exec, terminal, docs, spawns, |docs| - 1);
    } else {
      forall n: nat ensures Remaining(file, exec, docs, n) == docs {
        PassesKeep(file, exec, docs, n);
      }
      if exists n: nat :: !spawns(n) {
        var n: nat :| !spawns(n);
        assert !GoesOn(file, exec, terminal, docs, spawns, n);
      } else if !Startable(file, exec, terminal, docs) {
        assert !GoesOn(file, exec, terminal, docs, spawns, 0);
      }
    }
  }

  lemma {:induction false} PassesUse(file: DesktopFile, exec: string, docs: seq<string>, n: nat)
    requires ReadsDocuments(NO_FLAGS, exec)
    ensures |Remaining(file, exec, docs, n)| <= if |docs| <= n then 0 else |docs| - n
    decreases n
  {
    if n > 0 {
      ExpandUses(file, NO_FLAGS, exec, docs);
      PassesUse(file, exec, Expand(file, NO_FLAGS, exec, docs).1, n - 1);
    }
  }

  lemma {:induction false} PassesKeep(file: DesktopFile, exec: string, docs: seq<string>, n: nat)
    requires !ReadsDocuments(NO_FLAGS, exec) && docs != []
    ensures Remaining(file, exec, docs, n) == docs
    decreases n
  {
    if n > 0 {
      ExpandUses(file, NO_FLAGS, exec, docs);
      PassesKeep(file, exec, docs, n - 1);
    }
  }

  // ----- the loop -----

  /** Command number `k` is what the Exec key stands for with the documents that the ones
      before it have left, and its batch is those that it takes from the front of them. */
  ghost predicate Ran(file: DesktopFile, exec: string, terminal: Terminal, docs: seq<string>, batches: seq<seq<string>>, k: nat, command: string)
    requires k < |batches|
  {
    exists text, left ::
      && Flatten(batches[..k]) + batches[k] + left == docs
      && Means(file, Plain, exec, batches[k] + left, text, left) && RunsIn(terminal, text, Some(command))
  }

  ghost predicate AllRan(file: DesktopFile, exec: string, terminal: Terminal, docs: seq<string>, batches: seq<seq<string>>, commands: seq<string>) {
    |commands| == |batches| && forall k :: 0 <= k < |commands| ==> Ran(file, exec, terminal, docs, batches, k, commands[k])
  }

  lemma RanNext(file: DesktopFile, exec: string, terminal: Terminal, docs: seq<string>, batches: seq<seq<string>>, commands: seq<string>,
                used: seq<string>, left: seq<string>, command: string)
    requires AllRan(file, exec, terminal, docs, batches, commands) && Flatten(batches) + used + left == docs
    requires exists text :: Means(file, Plain, exec, used + left, text, left) && RunsIn(terminal, text, Some(command))
    ensures AllRan(file, exec, terminal, docs, batches + [used], commands + [command])
  {
    hide Means, RunsIn, Ran, Flatten;
    RanLast(file, exec, terminal, docs, batches, used, left, command);
    forall k | 0 <= k < |commands| ensures Ran(file, exec, terminal, docs, batches + [used], k, commands[k]) {
      RanStays(file, exec, terminal, docs, batches, used, k, commands[k]);
    }
  }

  /** The documents that a pass uses are those in front of what it leaves. */
  lemma UsedInFront(file: DesktopFile, exec: string, docs: seq<string>, batches: seq<seq<string>>, rest: seq<string>)
    requires Handed(exec, docs, batches, rest)
    ensures var left := Expand(file, NO_FLAGS, exec, rest).1;
      && |left| <= |rest|
      && var used := rest[..|rest| - |left|]; used + left == rest && Flatten(batches) + used + left == docs
  {
    hide Expand, ReadsDocuments, Flatten;
    ExpandUses(file, NO_FLAGS, exec, rest);
    var left := Expand(file, NO_FLAGS, exec, rest).1;
    var used := rest[..|rest| - |left|];
    assert used + left == rest;
    Regroup(Flatten(batches), used, left);
  }

  lemma RanStays(file: DesktopFile, exec: string, terminal: Terminal, docs: seq<string>, batches: seq<seq<string>>, used: seq<string>, k: nat, command: string)
    requires k < |batches| && Ran(file, exec, terminal, docs, batches, k, command)
    ensures Ran(file, exec, terminal, docs, batches + [used], k, command)
  {
    hide Means, RunsIn, Flatten;
    var text, left :|
      && Flatten(batches[..k]) + batches[k] + left == docs
      && Means(file, Plain, exec, batches[k] + left, text, left) && RunsIn(terminal, text, Some(command));
    assert (batches + [used])[..k] == batches[..k] && (batches + [used])[k] == batches[k];
    assert Flatten((batches + [used])[..k]) + (batches + [used])[k] + left == docs;
  }

  lemma RanLast(file: DesktopFile, exec: string, terminal: Terminal, docs: seq<string>, batches: seq<seq<string>>, used: seq<string>, left: seq<string>, command: string)
    requires Flatten(batches) + used + left == docs
    requires exists text :: Means(file, Plain, exec, used + left, text, left) && RunsIn(terminal, text, Some(command))
    ensures Ran(file, exec, terminal, docs, batches + [used], |batches|, command)
  {
    hide Means, RunsIn, Flatten;
    var text :| Means(file, Plain, exec, used + left, text, left) && RunsIn(terminal, text, Some(command));
    assert (batches + [used])[..|batches|] == batches && (batches + [used])[|batches|] == used;
    assert Flatten((batches + [used])[..|batches|]) + (batches + [used])[|batches|] + left == docs;
  }

  /** `egg_desktop_file_launchv`.  `spawns` says which launches succeed.  `docs` are the
      translated documents, `commands` the commands handed to the launcher, `batches` the
      documents that went into each, and `rest` is what is left. */
  method Launch(file: DesktopFile, exec: string, terminal: Terminal, uris: Uris, documents: seq<string>, spawns: nat -> bool)
    returns (ending: Ending, success: bool, docs: seq<string>, commands: seq<string>, batches: seq<seq<string>>, rest: seq<string>)
    requires (documents != [] && LoadCode(exec) == None) || Ends(file, exec, terminal, Translated(uris, AcceptsUris(exec), documents), spawns)
    ensures docs == Translated(uris, AcceptsUris(exec), documents)
    ensures exists at :: AreConverted(uris, AcceptsUris(exec), documents, at, docs)
    ensures AllRan(file, exec, terminal, docs, batches, commands)
    ensures ending == NotLaunchable <==> documents != [] && LoadCode(exec) == None
    ensures ending == NotLaunchable ==> !success && batches == [] && rest == docs
    ensures ending != NoCommand ==> Handed(exec, docs, batches, rest) && rest == Remaining(file, exec, docs, |batches|)
    ensures ending == NoCommand ==>
      && !Startable(file, exec, terminal, Remaining(file, exec, docs, |batches|)) && rest == Remaining(file, exec, docs, |batches| + 1)
      && exists lost :: Flatten(batches) + lost + rest == docs
    ensures ending == AllUsed ==> rest == [] && Flatten(batches) == docs && batches != [] && spawns(|batches| - 1)
    ensures ending == SpawnFailed ==> batches != [] && !spawns(|batches| - 1)
    ensures success <==> batches != [] && spawns(0)
    ensures forall i :: 0 <= i < |batches| - 1 ==> GoesOn(file, exec, terminal, docs, spawns, i)
  {
    hide Flatten, Handed, Translated, Expand, LoadCode, Words, Read, End, Remaining, GoesOn, Startable, Ends, Parses, CommandFor,
      ReadsDocuments, SoFar, AreConverted, Means, RunsIn, Ran, AllRan;
    docs := TranslateDocumentList(uris, AcceptsUris(exec), documents);
    success, commands, batches, rest := false, [], [], docs;
    NoneHanded(file, exec, terminal, docs, spawns);
    NoneRan(file, exec, terminal, docs);
    if documents != [] && LoadCode(exec) == None {
      return NotLaunchable, success, docs, commands, batches, rest;
    }
    ghost var stop := Stop(file, exec, terminal, docs, spawns);
    while true
      invariant SoFar(file, exec, terminal, docs, spawns, batches, rest) && AllRan(file, exec, terminal, docs, batches, commands)
      invariant success <==> batches != []
      invariant batches != [] ==> spawns(0)
      decreases if ReadsDocuments(NO_FLAGS, exec) then |rest| else stop - |batches|
    {
      OnePass(file, exec, terminal, docs, spawns, batches, rest, stop);
      var command, left := ParseExec(file, exec, terminal, rest);
      if command.None? || !Parses(command.value) {
        return NoCommand, success, docs, commands, batches, left;
      }
      var spawned := spawns(|batches|);
      UsedInFront(file, exec, docs, batches, rest);
      RanNext(file, exec, terminal, docs, batches, commands, rest[..|rest| - |left|], left, command.value);
      commands := commands + [command.value];
      batches, rest := batches + [rest[..|rest| - |left|]], left;
      if spawned {
        success := true;
      }
      if rest == [] || !spawned {
        return if spawned then AllUsed else SpawnFailed, success, docs, commands, batches, rest;
      }
    }
  }

  lemma NoneRan(file: DesktopFile, exec: string, terminal: Terminal, docs: seq<string>)
    ensures AllRan(file, exec, terminal, docs, [], [])
  {
  }

  /** The passes so far. */
  ghost predicate SoFar(file: DesktopFile, exec: string, terminal: Terminal, docs: seq<string>, spawns: nat -> bool, batches: seq<seq<string>>, rest: seq<string>) {
    && Handed(exec, docs, batches, rest) && rest == Remaining(file, exec, docs, |batches|) && (docs != [] ==> rest != [])
    && forall i :: 0 <= i < |batches| ==> spawns(i) && GoesOn(file, exec, terminal, docs, spawns, i)
  }

  /** What one more pass does. */
  lemma OnePass(file: DesktopFile, exec: string, terminal: Terminal, docs: seq<string>, spawns: nat -> bool, batches: seq<seq<string>>, rest: seq<string>, stop: nat)
    requires SoFar(file, exec, terminal, docs, spawns, batches, rest)
    requires docs == [] || ReadsDocuments(NO_FLAGS, exec) || !Startable(file, exec, terminal, docs) || !spawns(stop)
    ensures var (left, command) := (Expand(file, NO_FLAGS, exec, rest).1, CommandFor(file, exec, terminal, rest));
      && |left| <= |rest|
      && var used := rest[..|rest| - |left|]; var more := batches + [used];
         && left == Remaining(file, exec, docs, |batches| + 1) && rest == Remaining(file, exec, docs, |batches|)
         && Handed(exec, docs, more, left) && Handed(exec, docs, batches, rest)
         && (exists lost :: Flatten(batches) + lost + left == docs) && (left == [] ==> Flatten(more) == docs)
         && (Startable(file, exec, terminal, rest) <==> command.Some? && Parses(command.value))
         && (forall i :: 0 <= i < |batches| ==> GoesOn(file, exec, terminal, docs, spawns, i))
         && (Startable(file, exec, terminal, rest) && spawns(|batches|) && left != [] ==>
              && SoFar(file, exec, terminal, docs, spawns, more, left)
              && if ReadsDocuments(NO_FLAGS, exec) then |left| < |rest| else |batches| < stop)
  {
    hide Flatten, Expand, Words, Read, End, Remaining, GoesOn, Startable, Parses, CommandFor, ReadsDocuments, Handed;
    var left := Expand(file, NO_FLAGS, exec, rest).1;
    HandedNext(file, exec, docs, batches, rest);
    RemainingNext(file, exec, docs, |batches|);
    StartableIf(file, exec, terminal, rest);
    PassUses(file, exec, rest);
    AllHanded(exec, docs, batches + [rest[..|rest| - |left|]], left);
    if Startable(file, exec, terminal, rest) && spawns(|batches|) && left != [] {
      PassGoesOn(file, exec, terminal, docs, spawns, |batches|, stop);
    }
  }

  lemma StartableIf(file: DesktopFile, exec: string, terminal: Terminal, docs: seq<string>)
    ensures var c := CommandFor(file, exec, terminal, docs); Startable(file, exec, terminal, docs) <==> c.Some? && Parses(c.value)
  {
  }

  lemma PassUses(file: DesktopFile, exec: string, docs: seq<string>)
    ensures docs == [] ==> Expand(file, NO_FLAGS, exec, docs).1 == []
    ensures docs != [] && ReadsDocuments(NO_FLAGS, exec) ==> |Expand(file, NO_FLAGS, exec, docs).1| < |docs|
  {
    ExpandUses(file, NO_FLAGS, exec, docs);
  }

  /** Where the launches fail, if that is what ends the loop. */
  ghost function Stop(file: DesktopFile, exec: string, terminal: Terminal, docs: seq<string>, spawns: nat -> bool): (n: nat)
    requires Ends(file, exec, terminal, docs, spawns)
    ensures docs == [] || ReadsDocuments(NO_FLAGS, exec) || !Startable(file, exec, terminal, docs) || !spawns(n)
  {
    if exists n: nat :: !spawns(n) then var n: nat :| !spawns(n); n else 0
  }

  lemma PassGoesOn(file: DesktopFile, exec: string, terminal: Terminal, docs: seq<string>, spawns: nat -> bool, n: nat, stop: nat)
    requires Startable(file, exec, terminal, Remaining(file, exec, docs, n)) && spawns(n) && Remaining(file, exec, docs, n + 1) != []
    requires docs == [] || ReadsDocuments(NO_FLAGS, exec) || !Startable(file, exec, terminal, docs) || !spawns(stop)
    requires forall i :: 0 <= i < n ==> spawns(i)
    ensures GoesOn(file, exec, terminal, docs, spawns, n) && (ReadsDocuments(NO_FLAGS, exec) || n < stop)
  {
    hide Startable, Expand, ReadsDocuments;
    if docs == [] {
      NothingRemains(file, exec, n + 1);
    } else if !ReadsDocuments(NO_FLAGS, exec) {
      PassesKeep(file, exec, docs, n);
    }
  }

  lemma {:induction false} NothingRemains(file: DesktopFile, exec: string, n: nat)
    ensures Remaining(file, exec, [], n) == []
    decreases n
  {
    if n > 0 {
      ExpandUses(file, NO_FLAGS, exec, []);
      NothingRemains(file, exec, n - 1);
    }
  }

  lemma NoneHanded(file: DesktopFile, exec: string, terminal: Terminal, docs: seq<string>, spawns: nat -> bool)
    ensures SoFar(file, exec, terminal, docs, spawns, [], docs) && Handed(exec, docs, [], docs) && Remaining(file, exec, docs, 0) == docs
  {
  }

  lemma AllHanded(exec: string, docs: seq<string>, batches: seq<seq<string>>, rest: seq<string>)
    requires Handed(exec, docs, batches, rest)
    ensures rest == [] ==> Flatten(batches) == docs
  {
    assert Flatten(batches) + [] == Flatten(batches);
  }
}
