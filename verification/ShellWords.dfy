/** How a shell command line is read (sections 2.2 and 2.3 of the POSIX Shell Command
    Language, without comments and expansions). */
module ShellWords {

  /** The quoting state between two characters. */
  datatype Quoting = Plain | PlainEscape | Single | Double | DoubleEscape

  function Next(st: Quoting, c: char): Quoting {
    match st
    case Plain => if c == '\\' then PlainEscape else if c == '\'' then Single else if c == '"' then Double else Plain
    case PlainEscape => Plain
    case Single => if c == '\'' then Plain else Single
    case Double => if c == '\\' then DoubleEscape else if c == '"' then Plain else Double
    case DoubleEscape => Double
  }

  /** The state at the end of the text. */
  function End(st: Quoting, s: string): Quoting
    decreases s
  {
    if s == "" then st else End(Next(st, s[0]), s[1..])
  }

  /** What a character contributes: a character of the current word, a mark that there is
      a word, the end of a word, or nothing yet. */
  datatype Item = Lit(c: char) | Quote | Break

  predicate IsBlank(c: char) { c == ' ' || c == '\t' || c == '\n' }

  function Items(st: Quoting, c: char): seq<Item> {
    match st
    case Plain => if c == '\\' then [] else if c == '\'' || c == '"' then [Quote] else if IsBlank(c) then [Break] else [Lit(c)]
    case PlainEscape => if c == '\n' then [] else [Lit(c)]
    case Single => if c == '\'' then [Quote] else [Lit(c)]
    case Double => if c == '\\' then [] else if c == '"' then [Quote] else [Lit(c)]
    case DoubleEscape =>
      if c == '\n' then []
      else if c == '$' || c == '`' || c == '"' || c == '\\' then [Lit(c)]
      else [Lit('\\'), Lit(c)]
  }

  function Read(st: Quoting, s: string): seq<Item>
    decreases s
  {
    if s == "" then [] else Items(st, s[0]) + Read(Next(st, s[0]), s[1..])
  }

  /** The characters of the items. */
  function Chars(items: seq<Item>): string {
    if items == [] then "" else (if items[0].Lit? then [items[0].c] else "") + Chars(items[1..])
  }

  /** The words: what lies between breaks, unless that is nothing at all. */
  function Words(items: seq<Item>): seq<string> {
    WordsFrom([], items)
  }

  /** The words when `current` was read of the current one. */
  function WordsFrom(current: seq<Item>, items: seq<Item>): seq<string>
    decreases items
  {
    if items == [] then Word(current)
    else if items[0] == Break then Word(current) + WordsFrom([], items[1..])
    else WordsFrom(current + [items[0]], items[1..])
  }

  function Word(current: seq<Item>): seq<string> {
    if current == [] then [] else [Chars(current)]
  }

  // ----- appending -----

  lemma {:induction false} EndAppend(st: Quoting, s: string, t: string)
    ensures End(st, s + t) == End(End(st, s), t)
    decreases s
  {
    if s == "" {
      assert s + t == t;
    } else {
      assert (s + t)[1..] == s[1..] + t;
      EndAppend(Next(st, s[0]), s[1..], t);
    }
  }

  lemma {:induction false} ReadAppend(st: Quoting, s: string, t: string)
    ensures Read(st, s + t) == Read(st, s) + Read(End(st, s), t)
    decreases s
  {
    if s == "" {
      assert s + t == t;
    } else {
      assert (s + t)[1..] == s[1..] + t;
      ReadAppend(Next(st, s[0]), s[1..], t);
    }
  }

  lemma {:induction false} CharsAppend(a: seq<Item>, b: seq<Item>)
    ensures Chars(a + b) == Chars(a) + Chars(b)
    decreases a
  {
    hide Chars;
    if a == [] {
      NoChars();
      assert a + b == b;
    } else {
      CharsAppend(a[1..], b);
      CharsNext(a[0], a[1..]);
      CharsNext(a[0], a[1..] + b);
      assert a == [a[0]] + a[1..] && a + b == [a[0]] + (a[1..] + b);
    }
  }

  lemma NoChars()
    ensures Chars([]) == ""
  {
  }

  lemma CharsNext(i: Item, rest: seq<Item>)
    ensures Chars([i] + rest) == (if i.Lit? then [i.c] else "") + Chars(rest)
  {
    assert ([i] + rest)[1..] == rest;
  }

  lemma {:induction false} WordsBreak(current: seq<Item>, a: seq<Item>, b: seq<Item>)
    ensures WordsFrom(current, a + [Break] + b) == WordsFrom(current, a) + Words(b)
    decreases a
  {
    if a == [] {
      assert ([] + [Break] + b)[1..] == b;
      assert a + [Break] + b == [] + [Break] + b;
    } else {
      assert (a + [Break] + b)[1..] == a[1..] + [Break] + b;
      if a[0] == Break { WordsBreak([], a[1..], b); } else { WordsBreak(current + [a[0]], a[1..], b); }
    }
  }

  lemma {:induction false} OneWord(current: seq<Item>, items: seq<Item>)
    requires Break !in items && current + items != []
    ensures WordsFrom(current, items) == [Chars(current + items)]
    decreases items
  {
    if items == [] {
      assert current + items == current;
    } else {
      assert (current + [items[0]]) + items[1..] == current + items;
      OneWord(current + [items[0]], items[1..]);
    }
  }

  lemma OneChar(st: Quoting, c: char)
    ensures End(st, [c]) == Next(st, c) && Read(st, [c]) == Items(st, c)
  {
    assert [c][1..] == "";
    assert End(Next(st, c), "") == Next(st, c) && Read(Next(st, c), "") == [];
  }

  /** One more character. */
  lemma MoreChar(st: Quoting, s: string, c: char)
    ensures End(st, s + [c]) == Next(End(st, s), c) && Read(st, s + [c]) == Read(st, s) + Items(End(st, s), c)
  {
    EndAppend(st, s, [c]);
    ReadAppend(st, s, [c]);
    OneChar(End(st, s), c);
  }

  // ----- quoting a word -----

  function Escaped(w: string): string {
    if w == "" then "" else (if w[0] == '\'' then "'\\''" else [w[0]]) + Escaped(w[1..])
  }

  /** `append_quoted_word`: what it appends in the given state. */
  function Quoted(st: Quoting, w: string): string {
    match st
    case Single => Escaped(w)
    case Double => "\"'" + Escaped(w) + "'\""
    case _ => "'" + Escaped(w) + "'"
  }

  /** In single quotes the escaped word reads as the word. */
  lemma {:induction false} EscapedReads(w: string)
    ensures End(Single, Escaped(w)) == Single
    ensures Chars(Read(Single, Escaped(w))) == w && Break !in Read(Single, Escaped(w))
    decreases w
  {
    if w != "" {
      var first := if w[0] == '\'' then "'\\''" else [w[0]];
      EscapedReads(w[1..]);
      FirstReads(w[0], first);
      EndAppend(Single, first, Escaped(w[1..]));
      ReadAppend(Single, first, Escaped(w[1..]));
      CharsAppend(Read(Single, first), Read(Single, Escaped(w[1..])));
      assert w == [w[0]] + w[1..];
    }
  }

  lemma FirstReads(c: char, first: string)
    requires first == if c == '\'' then "'\\''" else [c]
    ensures End(Single, first) == Single && Chars(Read(Single, first)) == [c] && Break !in Read(Single, first)
  {
    hide End, Read;
    if c == '\'' {
      OneChar(Single, '\'');
      MoreChar(Single, "'", '\\');
      assert "'" + ['\\'] == "'\\";
      MoreChar(Single, "'\\", '\'');
      assert "'\\" + ['\''] == "'\\'";
      MoreChar(Single, "'\\'", '\'');
      assert "'\\'" + ['\''] == first;
      assert Read(Single, first) == [Quote, Lit('\''), Quote];
      assert Chars([Quote, Lit('\''), Quote]) == Chars([Lit('\''), Quote]) == ['\''] + Chars([Quote]);
    } else {
      OneChar(Single, c);
      assert Read(Single, first) == [Lit(c)];
    }
  }

  /** The round trip: in each of the three contexts the quoted word reads as exactly the
      word, ends no word, and leaves the quoting state as it was. */
  lemma QuotedReads(st: Quoting, w: string)
    requires st == Plain || st == Single || st == Double
    ensures End(st, Quoted(st, w)) == st
    ensures Chars(Read(st, Quoted(st, w))) == w && Break !in Read(st, Quoted(st, w))
    ensures st != Single ==> Read(st, Quoted(st, w)) != []
  {
    EscapedReads(w);
    if st != Single {
      var open, close := if st == Double then "\"'" else "'", if st == Double then "'\"" else "'";
      OpenClose(st, open, close);
      EndAppend(st, open + Escaped(w), close);
      EndAppend(st, open, Escaped(w));
      ReadAppend(st, open + Escaped(w), close);
      ReadAppend(st, open, Escaped(w));
      CharsAppend(Read(st, open) + Read(Single, Escaped(w)), Read(Single, close));
      CharsAppend(Read(st, open), Read(Single, Escaped(w)));
    }
  }

  lemma OpenClose(st: Quoting, open: string, close: string)
    requires st == Plain || st == Double
    requires open == (if st == Double then "\"'" else "'") && close == (if st == Double then "'\"" else "'")
    ensures End(st, open) == Single && End(Single, close) == st
    ensures Chars(Read(st, open)) == "" && Chars(Read(Single, close)) == ""
    ensures Break !in Read(st, open) && Break !in Read(Single, close) && Read(st, open) != []
  {
    hide End, Read;
    OneChar(st, open[0]);
    OneChar(Single, '\'');
    assert Chars([Quote]) == "" && Chars([Quote, Quote]) == Chars([Quote]);
    if st == Double {
      MoreChar(st, "\"", '\'');
      assert "\"" + ['\''] == open;
      MoreChar(Single, "'", '"');
      assert "'" + ['"'] == close;
      assert Read(st, open) == [Quote, Quote] && Read(Single, close) == [Quote, Quote];
    } else {
      assert open == ['\''] && close == ['\''];
      assert Read(st, open) == [Quote] && Read(Single, close) == [Quote];
    }
  }

  /** Outside quotes a quoted word is one word of the command line. */
  lemma QuotedIsWord(w: string)
    ensures Words(Read(Plain, Quoted(Plain, w))) == [w]
  {
    QuotedReads(Plain, w);
    var items := Read(Plain, Quoted(Plain, w));
    assert [] + items == items;
    OneWord([], items);
  }

  // ----- documents -----

  /** The documents as they are added for a field code: a blank and the quoted word. */
  function Added(st: Quoting, docs: seq<string>): string {
    if docs == [] then "" else " " + Quoted(st, docs[0]) + Added(st, docs[1..])
  }

  lemma {:induction false} AddedState(st: Quoting, docs: seq<string>)
    requires st == Plain || st == Single || st == Double
    ensures End(st, Added(st, docs)) == st
    decreases docs
  {
    if docs != [] {
      QuotedReads(st, docs[0]);
      OneChar(st, ' ');
      AddedState(st, docs[1..]);
      EndAppend(st, " " + Quoted(st, docs[0]), Added(st, docs[1..]));
      EndAppend(st, " ", Quoted(st, docs[0]));
    }
  }

  /** A word added outside quotes is a further word of the command line. */
  lemma AddedWord(command: string, w: string)
    requires End(Plain, command) == Plain
    ensures var next := command + (" " + Quoted(Plain, w));
      End(Plain, next) == Plain && Words(Read(Plain, next)) == Words(Read(Plain, command)) + [w]
  {
    hide End, Read, Quoted;
    var blank, word := " ", Quoted(Plain, w);
    QuotedReads(Plain, w);
    QuotedIsWord(w);
    OneChar(Plain, ' ');
    EndAppend(Plain, command, blank + word);
    EndAppend(Plain, blank, word);
    ReadAppend(Plain, command, blank + word);
    ReadAppend(Plain, blank, word);
    var a, b := Read(Plain, command), Read(Plain, word);
    assert Read(Plain, blank) == [Break];
    assert a + ([Break] + b) == a + [Break] + b;
    WordsBreak([], a, b);
  }

  /** Added outside quotes to a command, the documents are its further words, unchanged
      and in order, whatever characters they hold. */
  lemma {:induction false} AddedWords(command: string, docs: seq<string>)
    requires End(Plain, command) == Plain
    ensures Words(Read(Plain, command + Added(Plain, docs))) == Words(Read(Plain, command)) + docs
    decreases docs
  {
    hide End, Read, Quoted, Words;
    if docs == [] {
      assert command + Added(Plain, docs) == command;
    } else {
      var next := command + (" " + Quoted(Plain, docs[0]));
      AddedWord(command, docs[0]);
      AddedWords(next, docs[1..]);
      assert command + Added(Plain, docs) == next + Added(Plain, docs[1..]);
      assert [docs[0]] + docs[1..] == docs;
    }
  }
}
