/**
 Words given to a shell, and the words written inside an execute expression.
 */
module Shell {
  import opened Options

  /** The first position of `c` in `s`, or its length. */
  function IndexOf(s: string, c: char): (k: nat)
    ensures k <= |s| && (k < |s| ==> s[k] == c)
    ensures forall i :: 0 <= i < k ==> s[i] != c
  {
    if s == "" || s[0] == c then 0 else 1 + IndexOf(s[1..], c)
  }

  lemma {:induction false} IndexOfFirst(a: string, c: char, rest: string)
    requires c !in a
    ensures IndexOf(a + ([c] + rest), c) == |a| && IndexOf(a, c) == |a|
  {
    if a == "" {
      assert a + ([c] + rest) == [c] + rest;
    } else {
      IndexOfFirst(a[1..], c, rest);
      assert (a + ([c] + rest))[0] == a[0] && (a + ([c] + rest))[1..] == a[1..] + ([c] + rest);
    }
  }

  // --------------------------------------------------------------------------
  // One word of the shell's language
  // --------------------------------------------------------------------------

  /** Characters that mean themselves in a word, quoted or not. */
  predicate PlainChar(c: char) {
    'a' <= c <= 'z' || 'A' <= c <= 'Z' || '0' <= c <= '9' || c in "_./:@%+,-"
  }

  predicate Plain(text: string) {
    text != "" && forall i :: 0 <= i < |text| ==> PlainChar(text[i])
  }

  /** The text with every single quote closed, escaped and opened again. */
  function Escaped(text: string): string {
    if text == "" then "" else (if text[0] == '\'' then "'\\''" else [text[0]]) + Escaped(text[1..])
  }

  /** The text as one word. */
  function QuoteWord(text: string): string {
    if Plain(text) then text else "'" + Escaped(text) + "'"
  }

  function JoinWords(words: seq<string>): string {
    if words == [] then "" else if |words| == 1 then words[0] else words[0] + (" " + JoinWords(words[1..]))
  }

  function QuoteAll(texts: seq<string>): seq<string> {
    if texts == [] then [] else [QuoteWord(texts[0])] + QuoteAll(texts[1..])
  }

  // --------------------------------------------------------------------------
  // A shell's reading of words
  // --------------------------------------------------------------------------

  function Flush(word: Option<string>): seq<string> {
    if word.Some? then [word.value] else []
  }

  function Extended(word: Option<string>, more: string): Option<string> {
    Some((if word.Some? then word.value else "") + more)
  }

  /**
   What section 2.2 of the POSIX.1-2017 Shell Command Language tells to quote,
   blanks, backslash and single quote left out, and what starts a reserved word or
   an expansion in common shells.
   */
  predicate SpecialChar(c: char) {
    c in "|&;<>()$`\"\n*?[]#~={}!^"
  }

  /**
   Words by sections 2.2.1, 2.2.2 and 2.3 of the POSIX.1-2017 Shell Command
   Language: blanks delimit, a backslash takes the next character as it is and
   removes a line end, single quotes take everything up to the next one. Any other
   special character may start an expansion, an operator or a comment, and the
   reading fails. All that is left is literal.
   */
  function ReadWords(s: string, words: seq<string>, word: Option<string>): Option<seq<string>>
    decreases |s|
  {
    if s == "" then Some(words + Flush(word))
    else if s[0] == ' ' || s[0] == '\t' then ReadWords(s[1..], words + Flush(word), None)
    else if s[0] == '\'' then
      var k := IndexOf(s[1..], '\'');
      if k == |s| - 1 then None
      else ReadWords(s[k + 2..], words, Extended(word, s[1..][..k]))
    else if s[0] == '\\' then
      if |s| == 1 then None
      else if s[1] == '\n' then ReadWords(s[2..], words, word)
      else ReadWords(s[2..], words, Extended(word, [s[1]]))
    else if SpecialChar(s[0]) then None
    else ReadWords(s[1..], words, Extended(word, [s[0]]))
  }

  /** A quoted stretch without quotes in it. */
  lemma ReadQuoted(a: string, rest: string, words: seq<string>, word: Option<string>)
    requires '\'' !in a
    ensures ReadWords("'" + (a + ("'" + rest)), words, word) == ReadWords(rest, words, Extended(word, a))
  {
    var s := "'" + (a + ("'" + rest));
    IndexOfFirst(a, '\'', rest);
    assert "'" + rest == ['\''] + rest;
    assert s[1..] == a + ("'" + rest);
    assert s[1..][..|a|] == a && s[|a| + 2..] == rest;
  }

  lemma ReadEscapedQuote(rest: string, words: seq<string>, word: Option<string>)
    ensures ReadWords("\\'" + rest, words, word) == ReadWords(rest, words, Extended(word, "'"))
  {
    var s := "\\'" + rest;
    assert s[0] == '\\' && s[1] == '\'' && s[2..] == rest && [s[1]] == "'";
  }

  lemma {:induction false} EscapedConcat(a: string, b: string)
    ensures Escaped(a + b) == Escaped(a) + Escaped(b)
  {
    if a == "" {
      assert a + b == b;
    } else {
      EscapedConcat(a[1..], b);
      assert (a + b)[0] == a[0] && (a + b)[1..] == a[1..] + b;
      var head := if a[0] == '\'' then "'\\''" else [a[0]];
      assert head + (Escaped(a[1..]) + Escaped(b)) == (head + Escaped(a[1..])) + Escaped(b);
    }
  }

  lemma {:induction false} EscapedUnquoted(a: string)
    requires '\'' !in a
    ensures Escaped(a) == a
  {
    if a != "" {
      EscapedUnquoted(a[1..]);
      assert a == [a[0]] + a[1..];
    }
  }

  lemma EscapedSplits(a: string, b: string)
    requires '\'' !in a
    ensures Escaped(a + ("'" + b)) == a + ("'\\''" + Escaped(b))
  {
    EscapedUnquoted(a);
    EscapedConcat(a, "'" + b);
    assert ("'" + b)[1..] == b;
  }

  lemma ExtendedTwice(word: Option<string>, a: string, b: string)
    ensures Extended(Extended(word, a), b) == Extended(word, a + b)
  {
    var start := if word.Some? then word.value else "";
    assert start + a + b == start + (a + b);
  }

  lemma ExtendedThrice(word: Option<string>, a: string, b: string)
    ensures Extended(Extended(Extended(word, a), "'"), b) == Extended(word, a + ("'" + b))
  {
    ExtendedTwice(word, a, "'");
    ExtendedTwice(word, a + "'", b);
    assert a + "'" + b == a + ("'" + b);
  }

  /** The quoted form reads back as the text, whatever quotes the text holds. */
  lemma {:induction false} ReadEscaped(text: string, rest: string, words: seq<string>, word: Option<string>)
    ensures ReadWords("'" + (Escaped(text) + ("'" + rest)), words, word) == ReadWords(rest, words, Extended(word, text))
    decreases |text|
  {
    var k := IndexOf(text, '\'');
    var a := text[..k];
    if k == |text| {
      EscapedUnquoted(text);
      ReadQuoted(text, rest, words, word);
    } else {
      var b := text[k + 1..];
      assert text == a + ("'" + b);
      EscapedSplits(a, b);
      var last := "'" + (Escaped(b) + ("'" + rest));
      QuoteRegroup(a, Escaped(b), rest);
      ReadQuoted(a, "\\'" + last, words, word);
      ReadEscapedQuote(last, words, Extended(word, a));
      ReadEscaped(b, rest, words, Extended(Extended(word, a), "'"));
      ExtendedThrice(word, a, b);
    }
  }

  lemma QuoteRegroup(a: string, b: string, rest: string)
    ensures "'" + ((a + ("'\\''" + b)) + ("'" + rest)) == "'" + (a + ("'" + ("\\'" + ("'" + (b + ("'" + rest))))))
  {
  }

  lemma PlainIsLiteral(c: char)
    requires PlainChar(c)
    ensures c != ' ' && c != '\t' && c != '\'' && c != '\\' && !SpecialChar(c)
  {
  }

  lemma ReadPlainChar(c: char, rest: string, words: seq<string>, word: Option<string>)
    requires PlainChar(c)
    ensures ReadWords([c] + rest, words, word) == ReadWords(rest, words, Extended(word, [c]))
  {
    PlainIsLiteral(c);
    ReadsLiteral(c, rest, words, word);
  }

  lemma ReadsLiteral(c: char, rest: string, words: seq<string>, word: Option<string>)
    requires c != ' ' && c != '\t' && c != '\'' && c != '\\' && !SpecialChar(c)
    ensures ReadWords([c] + rest, words, word) == ReadWords(rest, words, Extended(word, [c]))
  {
    assert ([c] + rest)[1..] == rest;
  }

  lemma {:induction false} ReadPlain(text: string, rest: string, words: seq<string>, word: Option<string>)
    requires text != "" && forall i :: 0 <= i < |text| ==> PlainChar(text[i])
    ensures ReadWords(text + rest, words, word) == ReadWords(rest, words, Extended(word, text))
    decreases |text|
  {
    assert text + rest == [text[0]] + (text[1..] + rest);
    ReadPlainChar(text[0], text[1..] + rest, words, word);
    if |text| == 1 {
      assert text[1..] + rest == rest && [text[0]] == text;
    } else {
      ReadPlain(text[1..], rest, words, Extended(word, [text[0]]));
      ExtendedTwice(word, [text[0]], text[1..]);
      assert [text[0]] + text[1..] == text;
    }
  }

  /** A quoted word is read as its text and nothing else. */
  lemma ReadQuoteWord(text: string, rest: string, words: seq<string>)
    ensures ReadWords(QuoteWord(text) + rest, words, None) == ReadWords(rest, words, Some(text))
  {
    assert "" + text == text;
    if Plain(text) {
      ReadPlain(text, rest, words, None);
    } else {
      assert QuoteWord(text) + rest == "'" + (Escaped(text) + ("'" + rest));
      ReadEscaped(text, rest, words, None);
    }
  }

  lemma {:induction false} ReadJoined(texts: seq<string>, words: seq<string>)
    ensures ReadWords(JoinWords(QuoteAll(texts)), words, None) == Some(words + texts)
    decreases |texts|
  {
    if texts == [] {
      assert words + [] == words;
    } else {
      var q := QuoteWord(texts[0]);
      assert QuoteAll(texts)[1..] == QuoteAll(texts[1..]);
      if |texts| == 1 {
        assert QuoteAll(texts[1..]) == [] && q + "" == q;
        ReadQuoteWord(texts[0], "", words);
        assert [texts[0]] == texts;
      } else {
        var after := JoinWords(QuoteAll(texts[1..]));
        ReadQuoteWord(texts[0], " " + after, words);
        assert (" " + after)[1..] == after;
        ReadJoined(texts[1..], words + [texts[0]]);
        assert words + [texts[0]] + texts[1..] == words + texts;
      }
    }
  }

  /** Quoted and joined, any list of texts is read by the shell as exactly that list. */
  lemma QuotedWordsReadBack(texts: seq<string>)
    ensures ReadWords(JoinWords(QuoteAll(texts)), [], None) == Some(texts)
  {
    ReadJoined(texts, []);
    assert [] + texts == texts;
  }
}
