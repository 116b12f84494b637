/**
 What is written inside `</ ... />`: its reader, and the formatter's printer.
 */
module ExecuteWords {
  import opened Options
  import Shell
  import Output

  /** The characters of Unicode's White_Space property. */
  predicate IsWhitespace(c: char) {
    var n := c as int;
    || 0x9 <= n <= 0xD || n == 0x20 || n == 0x85 || n == 0xA0 || n == 0x1680
    || 0x2000 <= n <= 0x200A || n == 0x2028 || n == 0x2029 || n == 0x202F || n == 0x205F || n == 0x3000
  }

  predicate HasWhitespace(s: string) {
    exists i :: 0 <= i < |s| && IsWhitespace(s[i])
  }

  function TrimStart(s: string): string {
    if s != "" && IsWhitespace(s[0]) then TrimStart(s[1..]) else s
  }

  function TrimEnd(s: string): string {
    if s != "" && IsWhitespace(s[|s| - 1]) then TrimEnd(s[..|s| - 1]) else s
  }

  function Trim(s: string): string {
    TrimEnd(TrimStart(s))
  }

  predicate AllWhitespace(s: string) {
    forall i :: 0 <= i < |s| ==> IsWhitespace(s[i])
  }

  /** `t` is `s` without whitespace at either end. */
  ghost predicate IsTrimmed(s: string, t: string) {
    && (exists a, b :: AllWhitespace(a) && AllWhitespace(b) && s == a + t + b)
    && (t != "" ==> !IsWhitespace(t[0]) && !IsWhitespace(t[|t| - 1]))
  }

  lemma {:induction false} TrimStartIsExact(s: string) returns (a: string)
    ensures AllWhitespace(a) && s == a + TrimStart(s)
    ensures TrimStart(s) != "" ==> !IsWhitespace(TrimStart(s)[0])
  {
    if s != "" && IsWhitespace(s[0]) {
      var more := TrimStartIsExact(s[1..]);
      a := [s[0]] + more;
      assert s == [s[0]] + s[1..] == a + TrimStart(s);
    } else {
      a := "";
    }
  }

  lemma {:induction false} TrimEndIsExact(s: string) returns (b: string)
    ensures AllWhitespace(b) && s == TrimEnd(s) + b
    ensures TrimEnd(s) != "" ==> !IsWhitespace(TrimEnd(s)[|TrimEnd(s)| - 1])
  {
    if s != "" && IsWhitespace(s[|s| - 1]) {
      var more := TrimEndIsExact(s[..|s| - 1]);
      b := more + [s[|s| - 1]];
      assert s == s[..|s| - 1] + [s[|s| - 1]] == TrimEnd(s) + b;
    } else {
      b := "";
    }
  }

  lemma TrimIsExact(s: string)
    ensures IsTrimmed(s, Trim(s))
  {
    var a := TrimStartIsExact(s);
    var b := TrimEndIsExact(TrimStart(s));
    assert s == a + Trim(s) + b;
    if Trim(s) != "" {
      assert TrimStart(s)[0] == Trim(s)[0];
    }
  }

  datatype Word = Word(text: string, quoted: bool)

  /** The path, whether it was quoted, and the arguments. */
  datatype Command = Command(path: string, quoted: bool, args: seq<string>)

  // --------------------------------------------------------------------------
  // Words
  // --------------------------------------------------------------------------

  /** The first blank of `s`, or its length. */
  function BlankAt(s: string): (k: nat)
    ensures k <= |s| && (k < |s| ==> IsWhitespace(s[k]))
    ensures forall i :: 0 <= i < k ==> !IsWhitespace(s[i])
  {
    if s == "" || IsWhitespace(s[0]) then 0 else 1 + BlankAt(s[1..])
  }

  /** What a word in quotes holds, once the opening quote is read. */
  function InsideQuotes(s: string): string {
    s[..Shell.IndexOf(s, '"')]
  }

  /** What follows a word in quotes: the closing quote, when there is one, belongs to it. */
  function AfterQuoted(s: string): string {
    var k := Shell.IndexOf(s, '"');
    if k < |s| then s[k + 1..] else ""
  }

  /** The word that a text not starting with a blank starts with. */
  function FirstWord(s: string): Word
    requires s != "" && !IsWhitespace(s[0])
  {
    if s[0] == '"' then Word(InsideQuotes(s[1..]), true) else Word(s[..BlankAt(s)], false)
  }

  function AfterWord(s: string): (rest: string)
    requires s != "" && !IsWhitespace(s[0])
    ensures |rest| < |s|
  {
    if s[0] == '"' then AfterQuoted(s[1..]) else s[BlankAt(s)..]
  }

  /** Words stand between blanks; one in double quotes may hold blanks and loses the quotes. */
  function Words(s: string): seq<Word>
    decreases |s|
  {
    if s == "" then []
    else if IsWhitespace(s[0]) then Words(s[1..])
    else [FirstWord(s)] + Words(AfterWord(s))
  }

  /** Where a reader that takes one character at a time stands: between words, or inside one it has read `text` of. */
  datatype Reader = Between | Inside(text: string, quoted: bool)

  function ReadOn(s: string, at: Reader): seq<Word> {
    if s == "" then if at.Inside? then [Word(at.text, at.quoted)] else []
    else
      match at
      case Between =>
        ReadOn(s[1..], if IsWhitespace(s[0]) then Between else if s[0] == '"' then Inside("", true)
                       else Inside([s[0]], false))
      case Inside(text, quoted) =>
        if if quoted then s[0] == '"' else IsWhitespace(s[0]) then [Word(text, quoted)] + ReadOn(s[1..], Between)
        else ReadOn(s[1..], Inside(text + [s[0]], quoted))
  }

  lemma {:induction false} ReadOnBare(s: string, text: string)
    ensures ReadOn(s, Inside(text, false)) == [Word(text + s[..BlankAt(s)], false)] + ReadOn(s[BlankAt(s)..], Between)
    decreases |s|
  {
    if s == "" || IsWhitespace(s[0]) {
      assert text + s[..BlankAt(s)] == text && s[BlankAt(s)..] == s;
    } else {
      ReadOnBare(s[1..], text + [s[0]]);
      assert text + [s[0]] + s[1..][..BlankAt(s[1..])] == text + s[..BlankAt(s)];
      assert s[1..][BlankAt(s[1..])..] == s[BlankAt(s)..];
    }
  }

  lemma {:induction false} ReadOnQuoted(s: string, text: string)
    ensures ReadOn(s, Inside(text, true)) == [Word(text + InsideQuotes(s), true)] + ReadOn(AfterQuoted(s), Between)
    decreases |s|
  {
    if s == "" || s[0] == '"' {
      assert text + InsideQuotes(s) == text;
    } else {
      ReadOnQuoted(s[1..], text + [s[0]]);
      assert text + [s[0]] + InsideQuotes(s[1..]) == text + InsideQuotes(s);
      assert AfterQuoted(s[1..]) == AfterQuoted(s);
    }
  }

  /** The words are those of the reader that takes one character at a time. */
  lemma {:induction false} WordsAreRead(s: string)
    ensures Words(s) == ReadOn(s, Between)
    decreases |s|
  {
    if s != "" && IsWhitespace(s[0]) {
      WordsAreRead(s[1..]);
    } else if s != "" {
      WordsAreRead(AfterWord(s));
      if s[0] == '"' {
        ReadOnQuoted(s[1..], "");
        assert "" + InsideQuotes(s[1..]) == InsideQuotes(s[1..]);
      } else {
        ReadOnBare(s[1..], [s[0]]);
        assert [s[0]] + s[1..][..BlankAt(s[1..])] == s[..BlankAt(s)];
        assert s[1..][BlankAt(s[1..])..] == s[BlankAt(s)..];
      }
    }
  }

  function Texts(ws: seq<Word>): seq<string> {
    if ws == [] then [] else [ws[0].text] + Texts(ws[1..])
  }

  /** The first word is the path; without words the path is empty. */
  function CommandOf(ws: seq<Word>): Command {
    if ws == [] then Command("", false, []) else Command(ws[0].text, ws[0].quoted, Texts(ws[1..]))
  }

  lemma BlankAfter(s: string, p: nat, q: nat)
    requires p <= q <= |s| && (forall i :: p <= i < q ==> !IsWhitespace(s[i]))
    requires q < |s| ==> IsWhitespace(s[q])
    ensures BlankAt(s[p..]) == q - p
  {
    var k := BlankAt(s[p..]);
    assert k < |s[p..]| ==> s[p..][k] == s[p + k];
    assert q - p < |s[p..]| ==> s[p..][q - p] == s[q];
  }

  /** The first quote of `s` from `p` on, or its end. */
  function CloseFrom(s: string, p: nat): (q: nat)
    requires p <= |s|
    ensures p <= q <= |s|
    decreases |s| - p
  {
    if p == |s| || s[p] == '"' then p else CloseFrom(s, p + 1)
  }

  lemma {:induction false} CloseFromIsIndex(s: string, p: nat)
    requires p <= |s|
    ensures CloseFrom(s, p) == p + Shell.IndexOf(s[p..], '"')
    decreases |s| - p
  {
    if p < |s| && s[p] != '"' {
      assert s[p..][1..] == s[p + 1..];
      CloseFromIsIndex(s, p + 1);
    }
  }

  lemma QuoteAfter(s: string, p: nat)
    requires p <= |s|
    ensures InsideQuotes(s[p..]) == s[p..CloseFrom(s, p)]
    ensures AfterQuoted(s[p..]) == s[if CloseFrom(s, p) < |s| then CloseFrom(s, p) + 1 else |s|..]
  {
    var q := CloseFrom(s, p);
    CloseFromIsIndex(s, p);
    assert s[p..][..q - p] == s[p..q];
    assert q < |s| ==> s[p..][q - p + 1..] == s[q + 1..];
    assert s[|s|..] == "";
  }

  lemma SliceNext(s: string, p: nat, q: nat)
    requires p <= q < |s|
    ensures s[p..q] + [s[q]] == s[p..q + 1]
  {
  }

  /** Reads one word in quotes; `at` is behind the opening quote. */
  method ReadQuoted(chars: string, at: nat) returns (w: string, next: nat)
    requires at <= |chars|
    ensures at <= next <= |chars|
    ensures w == InsideQuotes(chars[at..]) && chars[next..] == AfterQuoted(chars[at..])
  {
    w := "";
    next := at;
    QuoteAfter(chars, at);
    while next < |chars|
      invariant at <= next <= |chars| && w == chars[at..next]
      invariant CloseFrom(chars, next) == CloseFrom(chars, at)
    {
      var ch := chars[next];
      SliceNext(chars, at, next);
      next := next + 1;
      if ch == '"' {
        return;
      }
      w := w + [ch];
    }
  }

  method ReadBare(chars: string, at: nat) returns (w: string, next: nat)
    requires at <= |chars|
    ensures next == at + BlankAt(chars[at..]) && at <= next <= |chars| && w == chars[at..next]
  {
    w := "";
    next := at;
    while next < |chars| && !IsWhitespace(chars[next])
      invariant at <= next <= |chars| && w == chars[at..next]
      invariant forall i :: at <= i < next ==> !IsWhitespace(chars[i])
    {
      SliceNext(chars, at, next);
      w := w + [chars[next]];
      next := next + 1;
    }
    BlankAfter(chars, at, next);
  }

  method SplitExecute(raw: string) returns (command: Command)
    ensures command == CommandOf(Words(Trim(raw)))
  {
    var words: seq<Word> := [];
    var chars := Trim(raw);
    var at := 0;
    while at < |chars|
      invariant 0 <= at <= |chars|
      invariant WordsOnto(words, chars[at..]) == WordsOnto([], chars)
    {
      var c := chars[at];
      OntoNext(words, chars, at);
      if IsWhitespace(c) {
        at := at + 1;
      } else if c == '"' {
        var w, next := ReadQuoted(chars, at + 1);
        words := words + [Word(w, true)];
        at := next;
      } else {
        var w, next := ReadBare(chars, at);
        BareFirst(chars, at, next);
        words := words + [Word(w, false)];
        at := next;
      }
    }
    OntoIsWords([], chars);
    assert [] + Words(chars) == Words(chars);
    command := CommandOf(words);
  }

  /** The words of `s` behind those already read. */
  function WordsOnto(acc: seq<Word>, s: string): seq<Word>
    decreases |s|
  {
    if s == "" then acc
    else if IsWhitespace(s[0]) then WordsOnto(acc, s[1..])
    else WordsOnto(acc + [FirstWord(s)], AfterWord(s))
  }

  lemma OntoNext(acc: seq<Word>, s: string, at: nat)
    requires at < |s|
    ensures s[at..][0] == s[at] && s[at..][1..] == s[at + 1..]
    ensures WordsOnto(acc, s[at..]) ==
            if IsWhitespace(s[at]) then WordsOnto(acc, s[at + 1..])
            else WordsOnto(acc + [FirstWord(s[at..])], AfterWord(s[at..]))
  {
  }

  lemma BareFirst(s: string, at: nat, next: nat)
    requires at < |s| && !IsWhitespace(s[at]) && s[at] != '"'
    requires next == at + BlankAt(s[at..]) && at <= next <= |s|
    ensures FirstWord(s[at..]) == Word(s[at..next], false) && AfterWord(s[at..]) == s[next..]
  {
    assert s[at..][..next - at] == s[at..next] && s[at..][next - at..] == s[next..];
  }

  lemma {:induction false} OntoIsWords(acc: seq<Word>, s: string)
    ensures WordsOnto(acc, s) == acc + Words(s)
    decreases |s|
  {
    if s != "" {
      if IsWhitespace(s[0]) {
        OntoIsWords(acc, s[1..]);
      } else {
        OntoIsWords(acc + [FirstWord(s)], AfterWord(s));
        WordsRegroup(acc, FirstWord(s), Words(AfterWord(s)));
      }
    }
  }

  lemma WordsRegroup(acc: seq<Word>, w: Word, rest: seq<Word>)
    ensures (acc + [w]) + rest == acc + ([w] + rest)
  {
  }

  // --------------------------------------------------------------------------
  // The printer
  // --------------------------------------------------------------------------

  predicate NeedsQuotes(arg: string) {
    arg == "" || HasWhitespace(arg)
  }

  function InQuotes(text: string): string {
    "\"" + (text + "\"")
  }

  function PrintedArg(arg: string): string {
    if NeedsQuotes(arg) then InQuotes(arg) else arg
  }

  function PrintedArgs(args: seq<string>): string {
    if args == [] then "" else " " + (PrintedArg(args[0]) + PrintedArgs(args[1..]))
  }

  function PrintedPath(c: Command): string {
    if c.quoted then InQuotes(c.path) else c.path
  }

  /** The command between `</` and `/>`. */
  function Printed(c: Command): string {
    PrintedPath(c) + PrintedArgs(c.args)
  }

  predicate EndsLine(text: string) {
    text != "" && text[|text| - 1] == '\n'
  }

  /** What a path that ends a line takes on: whatever is written behind it is indented. */
  function Gap(c: Command, indent: string): string {
    if EndsLine(c.path) then indent else ""
  }

  /** The command that the formatter writes for `c` where lines are indented by `indent`. */
  function Settled(c: Command, indent: string): Command {
    c.(path := c.path + Gap(c, indent))
  }

  /** What is written, with the indentation that the next text will get in front of it. */
  function Laid(output: Output.OutputBuilder): string
    reads output
  {
    if output.atLineStart then output.buffer + Output.IndentString(output.config, output.indentLevel) else output.buffer
  }

  /** Writes text that neither starts nor ends a line. */
  method Put(output: Output.OutputBuilder, text: string)
    requires output.Valid() && text != "" && text[0] != '\n' && !EndsLine(text)
    modifies output
    ensures output.Valid() && output.indentLevel == old(output.indentLevel) && !output.atLineStart
    ensures output.buffer == Laid(output) == old(Laid(output)) + text
  {
    output.Write(text, Output.Code(text));
    if !old(output.atLineStart) {
      assert old(output.buffer) + "" == old(output.buffer);
    }
  }

  /** The formatter's method for the expression. */
  method FormatExecute(output: Output.OutputBuilder, c: Command)
    requires output.Valid()
    modifies output
    ensures output.Valid() && output.indentLevel == old(output.indentLevel)
    ensures var indent := Output.IndentString(output.config, output.indentLevel);
            output.buffer == old(Laid(output)) + ("</" + (Printed(Settled(c, indent)) + "/>"))
  {
    ghost var before := Laid(output);
    ghost var path := PrintedPath(Settled(c, Output.IndentString(output.config, output.indentLevel)));
    Put(output, "</");
    FormatPath(output, c);
    FormatArgs(output, c.args);
    Put(output, "/>");
    PrintedRegroup(before, path, PrintedArgs(c.args));
  }

  method FormatPath(output: Output.OutputBuilder, c: Command)
    requires output.Valid() && !output.atLineStart
    modifies output
    ensures output.Valid() && output.indentLevel == old(output.indentLevel)
    ensures var indent := Output.IndentString(output.config, output.indentLevel);
            Laid(output) == old(Laid(output)) + PrintedPath(Settled(c, indent))
  {
    if c.quoted {
      ghost var before := Laid(output);
      Put(output, "\"");
      PutPath(output, c);
      Put(output, "\"");
      PathRegroup(before, Settled(c, Output.IndentString(output.config, output.indentLevel)).path);
    } else {
      PutPath(output, c);
    }
  }

  /** Writes the path as it is; behind one that ends a line, indentation is due. */
  method PutPath(output: Output.OutputBuilder, c: Command)
    requires output.Valid() && !output.atLineStart
    modifies output
    ensures output.Valid() && output.indentLevel == old(output.indentLevel)
    ensures var indent := Output.IndentString(output.config, output.indentLevel);
            Laid(output) == old(Laid(output)) + Settled(c, indent).path
  {
    ghost var before, indent := output.buffer, Output.IndentString(output.config, output.indentLevel);
    output.Write(c.path, Output.Code(c.path));
    GapRegroup(before, c.path, indent);
  }

  lemma GapRegroup(before: string, path: string, indent: string)
    ensures before + "" + path == before + (path + "") && before + "" + path + indent == before + (path + indent)
  {
  }

  lemma PathRegroup(before: string, path: string)
    ensures before + "\"" + path + "\"" == before + InQuotes(path)
  {
  }

  method FormatArgs(output: Output.OutputBuilder, args: seq<string>)
    requires output.Valid()
    modifies output
    ensures output.Valid() && output.indentLevel == old(output.indentLevel)
    ensures Laid(output) == old(Laid(output)) + PrintedArgs(args)
  {
    var i := 0;
    while i < |args|
      invariant 0 <= i <= |args|
      invariant output.Valid() && output.indentLevel == old(output.indentLevel)
      invariant ArgsOnto(Laid(output), args[i..]) == ArgsOnto(old(Laid(output)), args)
    {
      assert args[i..][0] == args[i] && args[i..][1..] == args[i + 1..];
      FormatArg(output, args[i]);
      i := i + 1;
    }
    ArgsOntoIsPrinted(old(Laid(output)), args);
  }

  method FormatArg(output: Output.OutputBuilder, arg: string)
    requires output.Valid()
    modifies output
    ensures output.Valid() && output.indentLevel == old(output.indentLevel)
    ensures Laid(output) == old(Laid(output)) + " " + PrintedArg(arg)
  {
    Put(output, " ");
    ArgKeepsLine(arg);
    if NeedsQuotes(arg) {
      Put(output, InQuotes(arg));
    } else {
      Put(output, arg);
    }
  }

  /** No argument is written so that it starts or ends a line. */
  lemma ArgKeepsLine(arg: string)
    ensures PrintedArg(arg) != "" && PrintedArg(arg)[0] != '\n' && !EndsLine(PrintedArg(arg))
  {
    if !NeedsQuotes(arg) {
      assert !IsWhitespace(arg[0]) && !IsWhitespace(arg[|arg| - 1]);
    }
  }

  function ArgsOnto(acc: string, args: seq<string>): string
    decreases args
  {
    if args == [] then acc else ArgsOnto(acc + " " + PrintedArg(args[0]), args[1..])
  }

  lemma {:induction false} ArgsOntoIsPrinted(acc: string, args: seq<string>)
    ensures ArgsOnto(acc, args) == acc + PrintedArgs(args)
    decreases args
  {
    if args != [] {
      ArgsOntoIsPrinted(acc + " " + PrintedArg(args[0]), args[1..]);
      PrintedArgRegroup(acc, PrintedArg(args[0]), PrintedArgs(args[1..]));
    }
  }

  lemma PrintedArgRegroup(acc: string, arg: string, rest: string)
    ensures acc + " " + arg + rest == acc + (" " + (arg + rest))
  {
  }

  lemma PrintedRegroup(before: string, path: string, args: string)
    ensures before + "</" + path + args + "/>" == before + ("</" + (path + args + "/>"))
  {
  }

  // --------------------------------------------------------------------------
  // Reading what was printed
  // --------------------------------------------------------------------------

  /** A word without quotes that reads back as itself. */
  predicate Bare(text: string) {
    text != "" && !HasWhitespace(text) && text[0] != '"'
  }

  predicate ArgFits(arg: string) {
    if NeedsQuotes(arg) then '"' !in arg else arg[0] != '"'
  }

  /** The commands that some text between `</` and `/>` spells. */
  predicate Representable(c: Command) {
    && (forall i :: 0 <= i < |c.args| ==> ArgFits(c.args[i]))
    && (if c.quoted then '"' !in c.path else if c.path == "" then c.args == [] else Bare(c.path))
  }

  /** The end of the text, or a blank. */
  predicate Delimited(rest: string) {
    rest == "" || IsWhitespace(rest[0])
  }

  lemma WordsInQuotes(w: string, rest: string)
    requires '"' !in w
    ensures Words(InQuotes(w) + rest) == [Word(w, true)] + Words(rest)
  {
    var s := InQuotes(w) + rest;
    assert s[1..] == w + (['"'] + rest);
    Shell.IndexOfFirst(w, '"', rest);
    assert InsideQuotes(s[1..]) == w && s[1..][|w| + 1..] == rest;
  }

  lemma {:induction false} BlankAtEnd(w: string, rest: string)
    requires !HasWhitespace(w) && Delimited(rest)
    ensures BlankAt(w + rest) == |w|
  {
    var s := w + rest;
    var k := BlankAt(s);
    assert forall i :: 0 <= i < |w| ==> s[i] == w[i];
    assert |w| < |s| ==> s[|w|] == rest[0];
  }

  lemma WordsBare(w: string, rest: string)
    requires Bare(w) && Delimited(rest)
    ensures Words(w + rest) == [Word(w, false)] + Words(rest)
  {
    var s := w + rest;
    BlankAtEnd(w, rest);
    assert s[0] == w[0] && !IsWhitespace(w[0]);
    assert s[..|w|] == w && s[|w|..] == rest;
  }

  lemma WordsArg(arg: string, rest: string)
    requires ArgFits(arg) && Delimited(rest)
    ensures Words(PrintedArg(arg) + rest) == [Word(arg, NeedsQuotes(arg))] + Words(rest)
  {
    if NeedsQuotes(arg) {
      WordsInQuotes(arg, rest);
    } else {
      WordsBare(arg, rest);
    }
  }

  lemma TextsCons(w: Word, ws: seq<Word>)
    ensures Texts([w] + ws) == [w.text] + Texts(ws)
  {
    assert ([w] + ws)[1..] == ws;
  }

  lemma WordsBlank(s: string)
    ensures Words(" " + s) == Words(s)
  {
    assert (" " + s)[1..] == s;
  }

  lemma {:induction false} WordsArgs(args: seq<string>)
    requires forall i :: 0 <= i < |args| ==> ArgFits(args[i])
    ensures Delimited(PrintedArgs(args)) && Texts(Words(PrintedArgs(args))) == args
    decreases |args|
  {
    if args != [] {
      var rest := PrintedArgs(args[1..]);
      WordsArgs(args[1..]);
      WordsArg(args[0], rest);
      WordsBlank(PrintedArg(args[0]) + rest);
      TextsCons(Word(args[0], NeedsQuotes(args[0])), Words(rest));
    }
  }

  lemma {:induction false} NothingToTrim(s: string)
    requires s != "" ==> !IsWhitespace(s[0]) && !IsWhitespace(s[|s| - 1])
    ensures Trim(s) == s
  {
  }

  lemma {:induction false} ArgsEnd(args: seq<string>)
    requires args != []
    ensures PrintedArgs(args) != "" && !IsWhitespace(PrintedArgs(args)[|PrintedArgs(args)| - 1])
    decreases |args|
  {
    if |args| > 1 {
      ArgsEnd(args[1..]);
    } else {
      var arg := PrintedArg(args[0]);
      assert arg != "" && !IsWhitespace(arg[|arg| - 1]);
      assert PrintedArgs(args) == " " + (arg + "");
    }
  }

  lemma PrintedTrimmed(c: Command)
    requires Representable(c)
    ensures Trim(Printed(c)) == Printed(c)
  {
    var head := PrintedPath(c);
    if head != "" {
      assert !IsWhitespace(head[0]) && !IsWhitespace(head[|head| - 1]);
      assert Printed(c)[0] == head[0];
      if c.args != [] {
        ArgsEnd(c.args);
      } else {
        assert Printed(c) == head;
      }
    }
    NothingToTrim(Printed(c));
  }

  lemma SplitPrinted(c: Command)
    requires Representable(c)
    ensures CommandOf(Words(Trim(Printed(c)))) == c
  {
    PrintedTrimmed(c);
    WordsArgs(c.args);
    if c.quoted {
      WordsInQuotes(c.path, PrintedArgs(c.args));
    } else if c.path != "" {
      WordsBare(c.path, PrintedArgs(c.args));
    }
    var ws := Words(Printed(c));
    var args := Words(PrintedArgs(c.args));
    assert c.quoted || c.path != "" ==> ws == [Word(c.path, c.quoted)] + args && ws[1..] == args;
  }

  // --------------------------------------------------------------------------
  // Every raw text spells a representable command
  // --------------------------------------------------------------------------

  predicate WordFits(w: Word) {
    if w.quoted then '"' !in w.text else Bare(w.text)
  }

  lemma {:induction false} WordsFit(s: string)
    ensures forall i :: 0 <= i < |Words(s)| ==> WordFits(Words(s)[i])
    decreases |s|
  {
    if s != "" {
      if IsWhitespace(s[0]) {
        WordsFit(s[1..]);
      } else if s[0] == '"' {
        WordsFit(AfterQuoted(s[1..]));
      } else {
        WordsFit(s[BlankAt(s)..]);
      }
    }
  }

  lemma {:induction false} TextsFit(ws: seq<Word>)
    requires forall i :: 0 <= i < |ws| ==> WordFits(ws[i])
    ensures forall i :: 0 <= i < |Texts(ws)| ==> ArgFits(Texts(ws)[i])
    decreases |ws|
  {
    if ws != [] {
      assert WordFits(ws[0]);
      assert forall i :: 0 <= i < |ws[1..]| ==> WordFits(ws[1..][i]) by {
        forall i | 0 <= i < |ws[1..]| ensures WordFits(ws[1..][i]) {
          assert WordFits(ws[i + 1]);
        }
      }
      TextsFit(ws[1..]);
    }
  }

  lemma SplitRepresentable(raw: string)
    ensures Representable(CommandOf(Words(Trim(raw))))
  {
    var ws := Words(Trim(raw));
    WordsFit(Trim(raw));
    if ws != [] {
      assert WordFits(ws[0]);
      TextsFit(ws[1..]);
    }
  }

  lemma {:induction false} RepeatOnly(c: char, n: nat)
    ensures forall x :: x in Output.Repeat(c, n) ==> x == c
  {
    if n > 0 {
      RepeatOnly(c, n - 1);
    }
  }

  lemma IndentOnlyBlanks(config: Output.Config, level: nat)
    ensures forall x :: x in Output.IndentString(config, level) ==> x == ' ' || x == '\t'
  {
    RepeatOnly(' ', config.indentSize * level);
    RepeatOnly('\t', level);
  }

  /** The path is quoted and ends a line, and lines are indented: the closing quote is moved away from the path. */
  predicate PathMoves(c: Command, indent: string) {
    c.quoted && EndsLine(c.path) && indent != ""
  }

  /** Only such a path is changed, and it becomes another one that reads back as itself. */
  lemma SettledIsRead(c: Command, config: Output.Config, level: nat)
    requires Representable(c)
    ensures var indent := Output.IndentString(config, level);
            && Representable(Settled(c, indent))
            && (Settled(c, indent) == c <==> !PathMoves(c, indent))
  {
    IndentOnlyBlanks(config, level);
    var path := c.path;
    if EndsLine(path) && !c.quoted {
      assert IsWhitespace(path[|path| - 1]);
    }
    assert path + "" == path;
  }

  /**
   A command survives printing and reading exactly when some text spells it and its
   path is not moved apart from its closing quote by indentation.
   */
  lemma PrintSplitIffRepresentable(c: Command, config: Output.Config, level: nat)
    ensures var indent := Output.IndentString(config, level);
            CommandOf(Words(Trim(Printed(Settled(c, indent))))) == c <==> Representable(c) && !PathMoves(c, indent)
  {
    var indent := Output.IndentString(config, level);
    SplitRepresentable(Printed(Settled(c, indent)));
    if Representable(c) {
      SettledIsRead(c, config, level);
      SplitPrinted(Settled(c, indent));
    }
  }

  /** Printing what was read and reading it again changes nothing but such a path, for every raw text. */
  lemma SplitPrintSplit(raw: string, config: Output.Config, level: nat)
    ensures var c, indent := CommandOf(Words(Trim(raw))), Output.IndentString(config, level);
            CommandOf(Words(Trim(Printed(Settled(c, indent))))) == c <==> !PathMoves(c, indent)
  {
    SplitRepresentable(raw);
    PrintSplitIffRepresentable(CommandOf(Words(Trim(raw))), config, level);
  }

  /** The path in `</"a` and on the next line `"/>` grows by the indentation whenever the file is formatted. */
  lemma PathOverTwoLinesGrows(config: Output.Config, level: nat)
    requires Output.IndentString(config, level) != ""
    ensures var c, indent := CommandOf(Words(Trim("\"a\n\""))), Output.IndentString(config, level);
            && c == Command("a\n", true, [])
            && CommandOf(Words(Trim(Printed(Settled(c, indent))))) == Command("a\n" + indent, true, [])
  {
    var c, indent := Command("a\n", true, []), Output.IndentString(config, level);
    assert Printed(c) == "\"a\n\"";
    SplitPrinted(c);
    SettledIsRead(c, config, level);
    SplitPrinted(Settled(c, indent));
  }

  // --------------------------------------------------------------------------
  // The closing mark
  // --------------------------------------------------------------------------

  /** `/>` does not occur in `s`. */
  predicate NoClose(s: string) {
    forall i :: 0 <= i < |s| - 1 ==> !(s[i] == '/' && s[i + 1] == '>')
  }

  /** The lexer's raw text: everything up to the first `/>`. */
  function ScanRaw(s: string): Option<string> {
    if |s| < 2 then None
    else if s[0] == '/' && s[1] == '>' then Some("")
    else match ScanRaw(s[1..])
      case None => None
      case Some(raw) => Some([s[0]] + raw)
  }

  lemma {:induction false} ScanStops(raw: string, tail: string)
    requires NoClose(raw)
    ensures ScanRaw(raw + ("/>" + tail)) == Some(raw)
    decreases |raw|
  {
    var s := raw + ("/>" + tail);
    if raw == "" {
      assert s == "/>" + tail;
    } else {
      assert s[0] == raw[0] && s[1..] == raw[1..] + ("/>" + tail);
      assert s[1] == if |raw| > 1 then raw[1] else '/';
      assert NoClose(raw[1..]) by {
        assert forall i :: 0 <= i < |raw[1..]| ==> raw[1..][i] == raw[i + 1];
      }
      ScanStops(raw[1..], tail);
      assert [raw[0]] + raw[1..] == raw;
    }
  }

  lemma {:induction false} ScannedHasNoClose(s: string)
    requires ScanRaw(s).Some?
    ensures NoClose(ScanRaw(s).value) && ScanRaw(s).value <= s
    decreases |s|
  {
    if !(s[0] == '/' && s[1] == '>') {
      ScannedHasNoClose(s[1..]);
      var raw := ScanRaw(s[1..]).value;
      assert raw != "" ==> raw[0] == s[1];
      forall i | 0 <= i < |[s[0]] + raw| - 1 ensures !(([s[0]] + raw)[i] == '/' && ([s[0]] + raw)[i + 1] == '>') {
        if i > 0 {
          assert raw[i - 1] == ([s[0]] + raw)[i] && raw[i] == ([s[0]] + raw)[i + 1];
        }
      }
    }
  }

  lemma NoCloseSlice(s: string, a: nat, b: nat)
    requires NoClose(s) && a <= b <= |s|
    ensures NoClose(s[a..b])
  {
    forall i | 0 <= i < b - a - 1 ensures !(s[a..b][i] == '/' && s[a..b][i + 1] == '>') {
      assert s[a..b][i] == s[a + i] && s[a..b][i + 1] == s[a + i + 1];
    }
  }

  lemma NoCloseConcat(a: string, b: string)
    requires NoClose(a) && NoClose(b)
    requires a == "" || b == "" || a[|a| - 1] != '/' || b[0] != '>'
    ensures NoClose(a + b)
  {
    var s := a + b;
    forall i | 0 <= i < |s| - 1 ensures !(s[i] == '/' && s[i + 1] == '>') {
      if i + 1 < |a| {
        assert s[i] == a[i] && s[i + 1] == a[i + 1];
      } else if i >= |a| {
        assert s[i] == b[i - |a|] && s[i + 1] == b[i + 1 - |a|];
      }
    }
  }

  lemma {:induction false} TrimNoClose(s: string)
    requires NoClose(s)
    ensures NoClose(TrimStart(s)) && NoClose(TrimEnd(s))
    decreases |s|
  {
    if s != "" {
      NoCloseSlice(s, 1, |s|);
      NoCloseSlice(s, 0, |s| - 1);
      assert s[1..|s|] == s[1..] && s[0..|s| - 1] == s[..|s| - 1];
      TrimNoClose(s[1..]);
      TrimNoClose(s[..|s| - 1]);
    }
  }

  lemma AfterQuotedNoClose(s: string)
    requires NoClose(s)
    ensures NoClose(AfterQuoted(s)) && NoClose(s[..Shell.IndexOf(s, '"')])
  {
    var k := Shell.IndexOf(s, '"');
    NoCloseSlice(s, 0, k);
    assert s[0..k] == s[..k];
    if k < |s| {
      NoCloseSlice(s, k + 1, |s|);
      assert s[k + 1..|s|] == s[k + 1..];
    }
  }

  lemma {:induction false} WordsNoClose(s: string)
    requires NoClose(s)
    ensures forall i :: 0 <= i < |Words(s)| ==> NoClose(Words(s)[i].text)
    decreases |s|
  {
    if s != "" {
      NoCloseSlice(s, 1, |s|);
      assert s[1..|s|] == s[1..];
      if IsWhitespace(s[0]) {
        WordsNoClose(s[1..]);
      } else if s[0] == '"' {
        AfterQuotedNoClose(s[1..]);
        WordsNoClose(AfterQuoted(s[1..]));
      } else {
        NoCloseSlice(s, 0, BlankAt(s));
        NoCloseSlice(s, BlankAt(s), |s|);
        assert s[0..BlankAt(s)] == s[..BlankAt(s)] && s[BlankAt(s)..|s|] == s[BlankAt(s)..];
        WordsNoClose(s[BlankAt(s)..]);
      }
    }
  }

  lemma InQuotesNoClose(text: string)
    requires NoClose(text)
    ensures NoClose(InQuotes(text))
  {
    NoCloseConcat(text, "\"");
    NoCloseConcat("\"", text + "\"");
  }

  lemma {:induction false} ArgsNoClose(args: seq<string>)
    requires forall i :: 0 <= i < |args| ==> NoClose(args[i])
    ensures NoClose(PrintedArgs(args)) && (args != [] ==> PrintedArgs(args)[0] == ' ')
    decreases |args|
  {
    if args != [] {
      ArgsNoClose(args[1..]);
      InQuotesNoClose(args[0]);
      NoCloseConcat(PrintedArg(args[0]), PrintedArgs(args[1..]));
      NoCloseConcat(" ", PrintedArg(args[0]) + PrintedArgs(args[1..]));
    }
  }

  lemma {:induction false} TextsNoClose(ws: seq<Word>)
    requires forall i :: 0 <= i < |ws| ==> NoClose(ws[i].text)
    ensures forall i :: 0 <= i < |Texts(ws)| ==> NoClose(Texts(ws)[i])
    decreases |ws|
  {
    if ws != [] {
      assert NoClose(ws[0].text);
      forall i | 0 <= i < |ws[1..]| ensures NoClose(ws[1..][i].text) {
        assert ws[1..][i] == ws[i + 1];
      }
      TextsNoClose(ws[1..]);
    }
  }

  /** Where nothing of a raw text closes the command, nothing of what is printed for it does. */
  lemma PrintedNoClose(raw: string, config: Output.Config, level: nat)
    requires NoClose(raw)
    ensures NoClose(Printed(Settled(CommandOf(Words(Trim(raw))), Output.IndentString(config, level))))
  {
    TrimNoClose(raw);
    TrimNoClose(TrimStart(raw));
    WordsNoClose(Trim(raw));
    var ws := Words(Trim(raw));
    if ws != [] {
      assert NoClose(ws[0].text);
      forall i | 0 <= i < |ws[1..]| ensures NoClose(ws[1..][i].text) {
        assert ws[1..][i] == ws[i + 1];
      }
      TextsNoClose(ws[1..]);
    }
    CommandNoClose(CommandOf(ws), config, level);
  }

  lemma CommandNoClose(c: Command, config: Output.Config, level: nat)
    requires NoClose(c.path) && forall i :: 0 <= i < |c.args| ==> NoClose(c.args[i])
    ensures NoClose(Printed(Settled(c, Output.IndentString(config, level))))
  {
    var indent := Output.IndentString(config, level);
    var settled := Settled(c, indent);
    IndentOnlyBlanks(config, level);
    assert forall i :: 0 <= i < |indent| ==> indent[i] in indent;
    NoCloseConcat(c.path, Gap(c, indent));
    ArgsNoClose(c.args);
    InQuotesNoClose(settled.path);
    NoCloseConcat(PrintedPath(settled), PrintedArgs(c.args));
  }

  /**
   From source to source: scanning to the mark, splitting, printing, and doing it
   again finds the mark that closes the command in its place, and gives the same
   command unless indentation moves its path.
   */
  lemma FormatKeepsCommand(source: string, tail: string, config: Output.Config, level: nat)
    requires ScanRaw(source).Some?
    ensures var c, indent := CommandOf(Words(Trim(ScanRaw(source).value))), Output.IndentString(config, level);
            var text := Printed(Settled(c, indent));
            && ScanRaw(text + ("/>" + tail)) == Some(text)
            && (CommandOf(Words(Trim(text))) == c <==> !PathMoves(c, indent))
  {
    var raw := ScanRaw(source).value;
    ScannedHasNoClose(source);
    PrintedNoClose(raw, config, level);
    ScanStops(Printed(Settled(CommandOf(Words(Trim(raw))), Output.IndentString(config, level))), tail);
    SplitPrintSplit(raw, config, level);
  }
}
