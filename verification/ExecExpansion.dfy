/** The Exec key of a desktop file: expanding its field codes and launching commands
    until the documents are used up. */
module ExecExpansion {
  import opened Wrappers
  import opened ShellWords
  import opened Sequences

  datatype DesktopFile = DesktopFile(icon: Option<string>, name: Option<string>, source: Option<string>)

  /** The flags of `parse_exec`. */
  datatype Flags = Flags(escape: bool, singleQuot: bool, doubleQuot: bool)
  {
    predicate Valid() {
      !(singleQuot && doubleQuot) && !(escape && singleQuot)
    }

    /** The state of the shell they stand for. */
    function State(): Quoting {
      if escape then (if doubleQuot then DoubleEscape else PlainEscape)
      else if singleQuot then Single
      else if doubleQuot then Double
      else Plain
    }

    /** What the loop makes of a character that is no field code. */
    function Step(c: char): Flags {
      if escape then this.(escape := false)
      else if c == '\\' then (if singleQuot then this else this.(escape := true))
      else if c == '\'' then
        (if !singleQuot && !doubleQuot then this.(singleQuot := true)
         else if singleQuot then this.(singleQuot := false)
         else this)
      else if c == '"' then
        (if !singleQuot && !doubleQuot then this.(doubleQuot := true)
         else if doubleQuot then this.(doubleQuot := false)
         else this)
      else this
    }
  }

  const NO_FLAGS := Flags(false, false, false)

  predicate IsDocumentCode(c: char) { c == 'F' || c == 'f' || c == 'U' || c == 'u' }

  /** `do_percent_subst`: what is appended, and the documents left. */
  function PercentSubst(file: DesktopFile, code: char, docs: seq<string>, st: Quoting): (string, seq<string>) {
    if code == '%' then ("%", docs)
    else if code == 'F' || code == 'U' then (Added(st, docs), [])
    else if code == 'f' || code == 'u' then
      (if docs == [] then ("", docs) else (Added(st, docs[..1]), docs[1..]))
    else if code == 'i' then
      (if file.icon.Some? then "--icon " + Quoted(st, file.icon.value) else "", docs)
    else if code == 'c' then
      (if file.name.Some? then Quoted(st, file.name.value) else "", docs)
    else if code == 'k' then
      (if file.source.Some? then Quoted(st, file.source.value) else "", docs)
    else ("", docs)
  }

  /** The loop of `parse_exec` reads a field code here. */
  predicate AtCode(f: Flags, exec: string) {
    !f.escape && |exec| > 1 && exec[0] == '%'
  }

  /** The expansion of the rest of the Exec string, and the documents left. */
  function Expand(file: DesktopFile, f: Flags, exec: string, docs: seq<string>): (string, seq<string>)
    decreases |exec|
  {
    if exec == "" then ("", docs)
    else if AtCode(f, exec) then
      var (out, rest) := PercentSubst(file, exec[1], docs, f.State());
      var (more, left) := Expand(file, f, exec[2..], rest);
      (out + more, left)
    else
      var (more, left) := Expand(file, f.Step(exec[0]), exec[1..], docs);
      ([exec[0]] + more, left)
  }

  /** The flags after the Exec string. */
  function EndFlags(f: Flags, exec: string): Flags
    decreases |exec|
  {
    if exec == "" then f
    else if AtCode(f, exec) then EndFlags(f, exec[2..])
    else EndFlags(f.Step(exec[0]), exec[1..])
  }

  // ----- the flags and the shell -----

  lemma StepFollows(f: Flags, c: char)
    requires f.Valid()
    ensures f.Step(c).Valid() && f.Step(c).State() == Next(f.State(), c)
  {
  }

  /** What a field code adds leaves the shell's state as it was. */
  lemma SubstState(file: DesktopFile, code: char, docs: seq<string>, st: Quoting)
    requires st == Plain || st == Single || st == Double
    ensures End(st, PercentSubst(file, code, docs, st).0) == st
  {
    hide End, Quoted, Added;
    OneChar(st, '%');
    assert "%" == ['%'];
    AddedState(st, docs);
    if docs != [] { AddedState(st, docs[..1]); }
    EmptyEnd(st);
    if code == 'i' && file.icon.Some? {
      QuotedReads(st, file.icon.value);
      IconState(st);
      EndAppend(st, "--icon ", Quoted(st, file.icon.value));
    }
    if code == 'c' && file.name.Some? { QuotedReads(st, file.name.value); }
    if code == 'k' && file.source.Some? { QuotedReads(st, file.source.value); }
  }

  lemma EmptyEnd(st: Quoting)
    ensures End(st, "") == st
  {
  }

  lemma IconState(st: Quoting)
    requires st == Plain || st == Single || st == Double
    ensures End(st, "--icon ") == st
  {
    OrdinaryState(st, "--icon ");
  }

  lemma {:induction false} OrdinaryState(st: Quoting, s: string)
    requires st == Plain || st == Single || st == Double
    requires forall i :: 0 <= i < |s| ==> s[i] != '\'' && s[i] != '"' && s[i] != '\\'
    ensures End(st, s) == st
    decreases s
  {
    if s != "" { OrdinaryState(st, s[1..]); }
  }

  /** The flags are at every point the quoting state of what was written so far: they
      are never both set, and they agree with the shell. */
  lemma {:induction false} FlagsFollowShell(file: DesktopFile, f: Flags, exec: string, docs: seq<string>)
    requires f.Valid()
    ensures EndFlags(f, exec).Valid()
    ensures End(f.State(), Expand(file, f, exec, docs).0) == EndFlags(f, exec).State()
    decreases |exec|
  {
    if exec == "" {
    } else if AtCode(f, exec) {
      var (out, rest) := PercentSubst(file, exec[1], docs, f.State());
      SubstState(file, exec[1], docs, f.State());
      FlagsFollowShell(file, f, exec[2..], rest);
      EndAppend(f.State(), out, Expand(file, f, exec[2..], rest).0);
    } else {
      StepFollows(f, exec[0]);
      OneChar(f.State(), exec[0]);
      FlagsFollowShell(file, f.Step(exec[0]), exec[1..], docs);
      EndAppend(f.State(), [exec[0]], Expand(file, f.Step(exec[0]), exec[1..], docs).0);
    }
  }

  /** Outside quotes a code for documents adds them to the command line as words. */
  lemma DocumentsAreWords(file: DesktopFile, command: string, code: char, docs: seq<string>)
    requires End(Plain, command) == Plain && IsDocumentCode(code)
    ensures var (out, rest) := PercentSubst(file, code, docs, Plain);
      Words(Read(Plain, command + out)) + rest == Words(Read(Plain, command)) + docs
  {
    hide Read, End, Words, Added, Quoted;
    AddedWords(command, docs);
    if docs != [] {
      AddedWords(command, docs[..1]);
      assert docs[..1] + docs[1..] == docs;
    } else {
      assert command + "" == command;
    }
  }

  // ----- what the shell reads for a code -----

  /** In state `st` the shell reads `s` as exactly these characters of the word it is in. */
  predicate ReadsAs(st: Quoting, s: string, chars: string) {
    End(st, s) == st && Chars(Read(st, s)) == chars && Break !in Read(st, s)
  }

  /** Nothing for a key that the file does not have; otherwise exactly its value, which
      outside quotes is a word even when it is empty. */
  predicate KeyReads(st: Quoting, key: Option<string>, s: string) {
    match key
    case None => s == ""
    case Some(w) => ReadsAs(st, s, w) && (st == Plain ==> Words(Read(Plain, s)) == [w])
  }

  /** The option and the icon: two words outside quotes, inside them text with a blank. */
  predicate IconReads(st: Quoting, icon: Option<string>, s: string) {
    match icon
    case None => s == ""
    case Some(w) =>
      if st == Plain then End(Plain, s) == Plain && Words(Read(Plain, s)) == ["--icon", w]
      else ReadsAs(st, s, "--icon " + w)
  }

  /** The documents with a blank before each. */
  function Spaced(docs: seq<string>): string {
    if docs == [] then "" else " " + docs[0] + Spaced(docs[1..])
  }

  /** Words of their own outside quotes, inside them text with blanks. */
  predicate DocumentsRead(st: Quoting, docs: seq<string>, s: string) {
    if st == Plain then
      End(Plain, s) == Plain && Words(Read(Plain, s)) == docs && (docs == [] || (Read(Plain, s) != [] && Read(Plain, s)[0] == Break))
    else
      ReadsAs(st, s, Spaced(docs))
  }

  /** What stands for the code in the command line when `docs` are the documents left, and
      `rest` those that are left then. */
  predicate CodeReads(file: DesktopFile, code: char, docs: seq<string>, st: Quoting, out: string, rest: seq<string>) {
    if code == 'F' || code == 'U' then DocumentsRead(st, docs, out) && rest == []
    else if (code == 'f' || code == 'u') && docs != [] then DocumentsRead(st, [docs[0]], out) && [docs[0]] + rest == docs
    else
      && rest == docs
      && if code == '%' then ReadsAs(st, out, "%")
         else if code == 'i' then IconReads(st, file.icon, out)
         else if code == 'c' then KeyReads(st, file.name, out)
         else if code == 'k' then KeyReads(st, file.source, out)
         else out == ""
  }

  predicate Escapes(st: Quoting) {
    st == PlainEscape || st == DoubleEscape
  }

  /** `command` is what the Exec string stands for and `rest` the documents left: read
      from the left in the quoting state of the shell, a percent sign that is not escaped
      begins a code unless it is the last character, and every other character stands for
      itself. */
  ghost predicate Means(file: DesktopFile, st: Quoting, exec: string, docs: seq<string>, command: string, rest: seq<string>)
    decreases |exec|
  {
    if exec == "" then command == "" && rest == docs
    else if exec[0] == '%' && |exec| > 1 && !Escapes(st) then
      exists out, left, more :: command == out + more && CodeReads(file, exec[1], docs, st, out, left)
                                && Means(file, st, exec[2..], left, more, rest)
    else
      exists more :: command == [exec[0]] + more && Means(file, Next(st, exec[0]), exec[1..], docs, more, rest)
  }

  lemma {:induction false} QuotedText(st: Quoting, s: string)
    requires st == Single || st == Double
    requires forall i :: 0 <= i < |s| ==> s[i] != '\'' && s[i] != '"' && s[i] != '\\'
    ensures ReadsAs(st, s, s)
    decreases s
  {
    if s != "" {
      QuotedText(st, s[1..]);
      CharsAppend([Lit(s[0])], Read(st, s[1..]));
      assert s == [s[0]] + s[1..];
    }
  }

  lemma ReadsInTurn(st: Quoting, a: string, x: string, b: string, y: string)
    requires ReadsAs(st, a, x) && ReadsAs(st, b, y)
    ensures ReadsAs(st, a + b, x + y)
  {
    hide End, Read, Chars;
    EndAppend(st, a, b);
    ReadAppend(st, a, b);
    CharsAppend(Read(st, a), Read(st, b));
  }

  lemma {:induction false} SpacedReads(st: Quoting, docs: seq<string>)
    requires st == Single || st == Double
    ensures ReadsAs(st, Added(st, docs), Spaced(docs))
    decreases docs
  {
    hide End, Read, Chars, Quoted;
    if docs == [] {
      QuotedText(st, "");
    } else {
      QuotedReads(st, docs[0]);
      QuotedText(st, " ");
      ReadsInTurn(st, " ", " ", Quoted(st, docs[0]), docs[0]);
      SpacedReads(st, docs[1..]);
      ReadsInTurn(st, " " + Quoted(st, docs[0]), " " + docs[0], Added(st, docs[1..]), Spaced(docs[1..]));
    }
  }

  lemma AddedReads(st: Quoting, docs: seq<string>)
    requires st == Plain || st == Single || st == Double
    ensures DocumentsRead(st, docs, Added(st, docs))
  {
    hide Words, Quoted;
    if st == Plain {
      AddedState(Plain, docs);
      AddedWords("", docs);
      assert "" + Added(Plain, docs) == Added(Plain, docs);
      NoWords();
      if docs != [] { assert Added(Plain, docs)[0] == ' '; }
    } else {
      SpacedReads(st, docs);
    }
  }

  lemma NoWords()
    ensures Words(Read(Plain, "")) == []
  {
  }

  lemma IconMeans(st: Quoting, icon: string)
    requires st == Plain || st == Single || st == Double
    ensures IconReads(st, Some(icon), "--icon " + Quoted(st, icon))
  {
    hide End, Read, Chars, Quoted, Words;
    if st == Plain {
      PlainWord("--icon");
      AddedWord("--icon", icon);
      assert "--icon" + (" " + Quoted(st, icon)) == "--icon " + Quoted(st, icon);
    } else {
      QuotedText(st, "--icon ");
      QuotedReads(st, icon);
      ReadsInTurn(st, "--icon ", "--icon ", Quoted(st, icon), icon);
    }
  }

  lemma KeyMeans(st: Quoting, w: string)
    requires st == Plain || st == Single || st == Double
    ensures KeyReads(st, Some(w), Quoted(st, w))
  {
    hide End, Read, Chars, Quoted, Words;
    QuotedReads(st, w);
    QuotedIsWord(w);
  }

  lemma PercentMeans(st: Quoting)
    requires st == Plain || st == Single || st == Double
    ensures ReadsAs(st, "%", "%")
  {
    hide End, Read;
    OneChar(st, '%');
    assert Chars([Lit('%')]) == "%";
  }

  /** Every code, inside quotes of either kind and outside, reads as it should. */
  lemma CodeMeans(file: DesktopFile, code: char, docs: seq<string>, st: Quoting)
    requires st == Plain || st == Single || st == Double
    ensures CodeReads(file, code, docs, st, PercentSubst(file, code, docs, st).0, PercentSubst(file, code, docs, st).1)
  {
    hide ReadsAs, DocumentsRead, Quoted, Added;
    PercentMeans(st);
    AddedReads(st, docs);
    if docs != [] {
      AddedReads(st, docs[..1]);
      assert docs[..1] == [docs[0]] && [docs[0]] + docs[1..] == docs;
    }
    if file.icon.Some? { IconMeans(st, file.icon.value); }
    if file.name.Some? { KeyMeans(st, file.name.value); }
    if file.source.Some? { KeyMeans(st, file.source.value); }
  }

  /** The expansion is what the Exec string stands for. */
  lemma {:induction false} ExpandMeans(file: DesktopFile, f: Flags, exec: string, docs: seq<string>)
    requires f.Valid()
    ensures var (command, rest) := Expand(file, f, exec, docs); Means(file, f.State(), exec, docs, command, rest)
    decreases |exec|
  {
    hide PercentSubst, CodeReads, Flags.Step;
    if exec == "" {
    } else if AtCode(f, exec) {
      CodeMeans(file, exec[1], docs, f.State());
      ExpandMeans(file, f, exec[2..], PercentSubst(file, exec[1], docs, f.State()).1);
    } else {
      StepFollows(f, exec[0]);
      ExpandMeans(file, f.Step(exec[0]), exec[1..], docs);
    }
  }

  /** A text in which every percent sign is escaped or the last character is copied. */
  lemma {:induction false} TextStays(file: DesktopFile, f: Flags, exec: string, docs: seq<string>)
    requires f.Valid()
    requires forall i :: 0 <= i < |exec| - 1 && exec[i] == '%' ==> Escapes(End(f.State(), exec[..i]))
    ensures Expand(file, f, exec, docs) == (exec, docs) && EndFlags(f, exec).State() == End(f.State(), exec)
    decreases |exec|
  {
    if exec != "" {
      assert exec[..0] == "";
      StepFollows(f, exec[0]);
      forall i | 0 <= i < |exec[1..]| - 1 && exec[1..][i] == '%' ensures Escapes(End(f.Step(exec[0]).State(), exec[1..][..i])) {
        assert exec[..i + 1][0] == exec[0] && exec[..i + 1][1..] == exec[1..][..i] && exec[i + 1] == '%';
      }
      TextStays(file, f.Step(exec[0]), exec[1..], docs);
      assert [exec[0]] + exec[1..] == exec;
    }
  }

  /** The last character is a percent sign that begins a code if anything follows. */
  predicate EndsInCode(f: Flags, exec: string)
    decreases |exec|
  {
    exec != "" &&
    if AtCode(f, exec) then EndsInCode(f, exec[2..])
    else if exec == "%" then !f.escape
    else EndsInCode(f.Step(exec[0]), exec[1..])
  }

  /** A text is expanded piece by piece unless a code is cut, with the documents that one
      piece leaves going to the next. */
  lemma {:induction false} ExpandInTurn(file: DesktopFile, f: Flags, a: string, b: string, docs: seq<string>)
    requires !EndsInCode(f, a) || b == ""
    ensures var (first, left) := Expand(file, f, a, docs);
      var (second, rest) := Expand(file, EndFlags(f, a), b, left);
      Expand(file, f, a + b, docs) == (first + second, rest)
    ensures EndFlags(f, a + b) == EndFlags(EndFlags(f, a), b)
    decreases |a|
  {
    if b == "" {
      assert a + b == a && Expand(file, f, a, docs).0 + "" == Expand(file, f, a, docs).0;
    } else if a == "" {
      assert a + b == b && "" + Expand(file, f, b, docs).0 == Expand(file, f, b, docs).0;
    } else if AtCode(f, a) {
      assert (a + b)[2..] == a[2..] + b && (a + b)[1] == a[1];
      var (out, left) := PercentSubst(file, a[1], docs, f.State());
      ExpandInTurn(file, f, a[2..], b, left);
      Regroup(out, Expand(file, f, a[2..], left).0, Expand(file, EndFlags(f, a), b, Expand(file, f, a, docs).1).0);
    } else {
      assert (a + b)[1..] == a[1..] + b;
      NotAtCode(f, a, b);
      ExpandInTurn(file, f.Step(a[0]), a[1..], b, docs);
      Regroup([a[0]], Expand(file, f.Step(a[0]), a[1..], docs).0, Expand(file, EndFlags(f, a), b, Expand(file, f, a, docs).1).0);
    }
  }

  lemma NotAtCode(f: Flags, a: string, b: string)
    requires a != "" && !AtCode(f, a) && !EndsInCode(f, a)
    ensures !AtCode(f, a + b)
  {
    if |a| == 1 && a[0] == '%' { assert a == "%"; }
  }

  // ----- the documents an expansion uses -----

  /** `parse_exec` reads a code for documents somewhere. */
  predicate ReadsDocuments(f: Flags, exec: string)
    decreases |exec|
  {
    exec != "" &&
    if AtCode(f, exec) then IsDocumentCode(exec[1]) || ReadsDocuments(f, exec[2..])
    else ReadsDocuments(f.Step(exec[0]), exec[1..])
  }

  /** Documents are used from the front, and at least one is if there is one and a code
      for it is read. */
  lemma {:induction false} ExpandUses(file: DesktopFile, f: Flags, exec: string, docs: seq<string>)
    ensures var rest := Expand(file, f, exec, docs).1; |rest| <= |docs| && rest == docs[|docs| - |rest|..]
    ensures docs != [] ==> (|Expand(file, f, exec, docs).1| < |docs| <==> ReadsDocuments(f, exec))
    decreases |exec|
  {
    if exec == "" {
    } else if AtCode(f, exec) {
      var rest := PercentSubst(file, exec[1], docs, f.State()).1;
      ExpandUses(file, f, exec[2..], rest);
    } else {
      ExpandUses(file, f.Step(exec[0]), exec[1..], docs);
    }
  }

  /** The scan at load time for the code that takes documents. */
  function LoadCode(exec: string): Option<char>
    decreases |exec|
  {
    if exec == "" then None
    else if exec[0] == '%' then
      (if |exec| == 1 then None
       else if IsDocumentCode(exec[1]) then Some(exec[1])
       else LoadCode(exec[2..]))
    else LoadCode(exec[1..])
  }

  /** The percent signs right before a place. */
  function PercentsBefore(exec: string, i: nat): nat
    requires i <= |exec|
  {
    if i > 0 && exec[i - 1] == '%' then 1 + PercentsBefore(exec, i - 1) else 0
  }

  /** A percent sign after an even number of them, with a character for documents next. */
  predicate DocumentCodeAt(exec: string, i: nat) {
    i + 1 < |exec| && exec[i] == '%' && PercentsBefore(exec, i) % 2 == 0 && IsDocumentCode(exec[i + 1])
  }

  predicate FirstDocumentCode(exec: string, i: nat) {
    DocumentCodeAt(exec, i) && forall j :: 0 <= j < i ==> !DocumentCodeAt(exec, j)
  }

  lemma {:induction false} LoadCodeFrom(exec: string, p: nat)
    requires p <= |exec| && PercentsBefore(exec, p) % 2 == 0 && forall j :: 0 <= j < p ==> !DocumentCodeAt(exec, j)
    ensures match LoadCode(exec[p..])
      case Some(c) => exists i: nat :: FirstDocumentCode(exec, i) && exec[i + 1] == c
      case None => forall i: nat :: !DocumentCodeAt(exec, i)
    decreases |exec| - p
  {
    if p < |exec| {
      assert exec[p..][1..] == exec[p + 1..];
      if exec[p] != '%' {
        LoadCodeFrom(exec, p + 1);
      } else if p + 1 < |exec| {
        assert exec[p..][2..] == exec[p + 2..];
        if IsDocumentCode(exec[p + 1]) {
          assert FirstDocumentCode(exec, p);
        } else {
          LoadCodeFrom(exec, p + 2);
        }
      }
    }
  }

  /** The scan finds the first code for documents, percent signs taken in pairs. */
  lemma LoadCodeIsFirst(exec: string)
    ensures match LoadCode(exec)
      case Some(c) => exists i: nat :: FirstDocumentCode(exec, i) && exec[i + 1] == c
      case None => forall i: nat :: !DocumentCodeAt(exec, i)
  {
    assert exec[0..] == exec;
    LoadCodeFrom(exec, 0);
  }

  /** Without backslashes the scan finds a code exactly if `parse_exec` reads one. */
  lemma {:induction false} LoadCodeIsRead(f: Flags, exec: string)
    requires !f.escape && '\\' !in exec
    ensures LoadCode(exec).Some? <==> ReadsDocuments(f, exec)
    decreases |exec|
  {
    if exec != "" {
      if AtCode(f, exec) {
        if !IsDocumentCode(exec[1]) { LoadCodeIsRead(f, exec[2..]); }
      } else if exec[0] == '%' {
        assert exec[1..] == "" && !ReadsDocuments(f.Step('%'), "");
      } else {
        LoadCodeIsRead(f.Step(exec[0]), exec[1..]);
      }
    }
  }

  /** With one they part in both directions: an escaped code is found and not read, and a
      code after an escaped percent sign is read and not found. */
  lemma EscapedCode()
    ensures LoadCode("a \\%f") == Some('f') && !ReadsDocuments(NO_FLAGS, "a \\%f")
    ensures LoadCode("a \\%%f") == None && ReadsDocuments(NO_FLAGS, "a \\%%f")
  {
    var f, e := NO_FLAGS, NO_FLAGS.(escape := true);
    assert "a \\%f"[1..] == " \\%f" && " \\%f"[1..] == "\\%f" && "\\%f"[1..] == "%f" && "%f"[1..] == "f" && "f"[1..] == "";
    assert LoadCode("%f") == Some('f') && LoadCode("\\%f") == Some('f') && LoadCode(" \\%f") == Some('f');
    assert !ReadsDocuments(f, "f") && !ReadsDocuments(e, "%f") && !ReadsDocuments(f, "\\%f") && !ReadsDocuments(f, " \\%f");
    assert "a \\%%f"[1..] == " \\%%f" && " \\%%f"[1..] == "\\%%f" && "\\%%f"[1..] == "%%f" && "%%f"[1..] == "%f" && "%%f"[2..] == "f";
    assert LoadCode("f") == None && LoadCode("%%f") == None && LoadCode("\\%%f") == None && LoadCode(" \\%%f") == None;
    assert ReadsDocuments(f, "%f") && ReadsDocuments(e, "%%f") && ReadsDocuments(f, "\\%%f") && ReadsDocuments(f, " \\%%f");
  }

  // ----- parse_exec -----

  /** `append_quoted_word` */
  method AppendQuotedWord(str: string, s: string, inSingleQuotes: bool, inDoubleQuotes: bool) returns (r: string)
    requires !(inSingleQuotes && inDoubleQuotes)
    ensures r == str + Quoted(Flags(false, inSingleQuotes, inDoubleQuotes).State(), s)
  {
    hide Escaped;
    if inSingleQuotes {
      r := AppendEscaped(str, s);
    } else if inDoubleQuotes {
      r := AppendEscaped(str + "\"'", s);
      r := r + "'\"";
      Surround(str, "\"'", Escaped(s), "'\"");
    } else {
      r := AppendEscaped(str + "'", s);
      r := r + "'";
      Surround(str, "'", Escaped(s), "'");
    }
  }

  lemma Surround(a: string, b: string, c: string, d: string)
    ensures (a + b) + c + d == a + (b + c + d)
  {
  }

  /** Its loop over the characters of the word. */
  method AppendEscaped(str: string, s: string) returns (r: string)
    ensures r == str + Escaped(s)
  {
    if '\'' !in s {
      NothingEscaped(s);
      return str + s;
    }
    r := str;
    for i := 0 to |s|
      invariant r + Escaped(s[i..]) == str + Escaped(s)
    {
      assert s[i..][1..] == s[i + 1..];
      var piece := if s[i] == '\'' then "'\\''" else [s[i]];
      Regroup(r, piece, Escaped(s[i + 1..]));
      r := r + piece;
    }
    assert s[|s|..] == "" && r + "" == r;
  }

  lemma {:induction false} NothingEscaped(s: string)
    requires '\'' !in s
    ensures Escaped(s) == s
    decreases s
  {
    if s != "" {
      NothingEscaped(s[1..]);
      assert s == [s[0]] + s[1..];
    }
  }

  /** The loop of `parse_exec`. */
  method ExpandExec(file: DesktopFile, exec: string, docs: seq<string>) returns (command: string, rest: seq<string>)
    ensures Means(file, Plain, exec, docs, command, rest)
    ensures (command, rest) == Expand(file, NO_FLAGS, exec, docs)
    ensures End(Plain, command) == EndFlags(NO_FLAGS, exec).State()
  {
    hide Means;
    FlagsFollowShell(file, NO_FLAGS, exec, docs);
    ExpandMeans(file, NO_FLAGS, exec, docs);
    command, rest := "", docs;
    var f := NO_FLAGS;
    var p := 0;
    assert exec[0..] == exec;
    Start(Expand(file, f, exec, docs).0);
    while p < |exec|
      invariant 0 <= p <= |exec| && f.Valid()
      invariant var (more, left) := Expand(file, f, exec[p..], rest);
        Expand(file, NO_FLAGS, exec, docs) == (command + more, left)
    {
      if AtCode(f, exec[p..]) {
        var (out, left) := PercentSubst(file, exec[p + 1], rest, f.State());
        assert exec[p..][2..] == exec[p + 2..];
        Regroup(command, out, Expand(file, f, exec[p + 2..], left).0);
        command, rest := command + out, left;
        p := p + 2;
      } else {
        assert exec[p..][1..] == exec[p + 1..];
        StepFollows(f, exec[p]);
        Regroup(command, [exec[p]], Expand(file, f.Step(exec[p]), exec[p + 1..], rest).0);
        command := command + [exec[p]];
        f := f.Step(exec[p]);
        p := p + 1;
      }
    }
    assert exec[p..] == "" && command + "" == command;
  }

  lemma Start(s: string)
    ensures "" + s == s
  {
  }

  datatype Terminal = NoTerminal | InTerminal | BadTerminal

  /** The command line that the documents go into: None when the Terminal key cannot be
      read. */
  function CommandFor(file: DesktopFile, exec: string, terminal: Terminal, docs: seq<string>): Option<string> {
    var text := Expand(file, NO_FLAGS, exec, docs).0;
    match terminal
    case BadTerminal => None
    case NoTerminal => Some(text)
    case InTerminal => Some("xdg-terminal " + Quoted(Plain, text))
  }

  /** The expansion as it is, in a terminal as the second of two words, or no command. */
  predicate RunsIn(terminal: Terminal, text: string, command: Option<string>) {
    match terminal
    case BadTerminal => command == None
    case NoTerminal => command == Some(text)
    case InTerminal =>
      command.Some? && End(Plain, command.value) == Plain && Words(Read(Plain, command.value)) == ["xdg-terminal", text]
  }

  /** `parse_exec` */
  method ParseExec(file: DesktopFile, exec: string, terminal: Terminal, docs: seq<string>)
    returns (command: Option<string>, rest: seq<string>)
    ensures rest == Expand(file, NO_FLAGS, exec, docs).1
    ensures command == CommandFor(file, exec, terminal, docs)
    ensures exists text :: Means(file, Plain, exec, docs, text, rest) && RunsIn(terminal, text, command)
  {
    hide Means, End, Read, Words;
    var text;
    text, rest := ExpandExec(file, exec, docs);
    match terminal
    case BadTerminal => command := None;
    case NoTerminal => command := Some(text);
    case InTerminal =>
      var r := AppendQuotedWord("xdg-terminal ", text, false, false);
      TerminalWords(text);
      command := Some(r);
  }

  lemma TerminalWords(text: string)
    ensures End(Plain, "xdg-terminal " + Quoted(Plain, text)) == Plain
    ensures Words(Read(Plain, "xdg-terminal " + Quoted(Plain, text))) == ["xdg-terminal", text]
  {
    hide End, Read, Words, Quoted;
    PlainWord("xdg-terminal");
    AddedWord("xdg-terminal", text);
    assert "xdg-terminal " + Quoted(Plain, text) == "xdg-terminal" + (" " + Quoted(Plain, text));
  }

  lemma {:induction false} PlainItems(s: string)
    requires forall i :: 0 <= i < |s| ==> s[i] != '\'' && s[i] != '"' && s[i] != '\\' && !IsBlank(s[i])
    ensures End(Plain, s) == Plain && Chars(Read(Plain, s)) == s && Break !in Read(Plain, s) && |Read(Plain, s)| == |s|
    decreases s
  {
    if s != "" {
      PlainItems(s[1..]);
      CharsAppend([Lit(s[0])], Read(Plain, s[1..]));
      assert s == [s[0]] + s[1..];
    }
  }

  lemma PlainWord(s: string)
    requires s != "" && forall i :: 0 <= i < |s| ==> s[i] != '\'' && s[i] != '"' && s[i] != '\\' && !IsBlank(s[i])
    ensures End(Plain, s) == Plain && Words(Read(Plain, s)) == [s]
  {
    PlainItems(s);
    assert [] + Read(Plain, s) == Read(Plain, s);
    OneWord([], Read(Plain, s));
  }
}
