/**
 The format visitor: it walks the statement tree in source order, writes its
 text, and interleaves the comments by the lines they start on.
 */
module Formatter {
  import opened Options
  import opened Comments
  import opened Syntax
  import opened Output
  import opened Layout
  import opened SourceOrder
  import Contents

  /** A `//` comment holds no line end and is the last comment of its line. */
  ghost predicate Lexed(items: seq<Comment>) {
    && (forall i :: 0 <= i < |items| && !items[i].isBlock ==> '\n' !in items[i].text)
    && (forall i, j :: 0 <= i < j < |items| && !items[i].isBlock ==> items[i].startLine < items[j].startLine)
  }

  // --------------------------------------------------------------------------
  // Block comments
  // --------------------------------------------------------------------------

  /** The pieces of `t` between its line ends. */
  function SplitLines(t: string): (ls: seq<string>)
    ensures ls != []
  {
    if t == "" then [""]
    else
      var ls := SplitLines(t[..|t| - 1]);
      if t[|t| - 1] == '\n' then ls + [""] else ls[..|ls| - 1] + [ls[|ls| - 1] + [t[|t| - 1]]]
  }

  function JoinOnto(acc: string, ls: seq<string>): string
    decreases ls
  {
    if ls == [] then acc else JoinOnto(acc + ("\n" + ls[0]), ls[1..])
  }

  function JoinLines(ls: seq<string>): string
    requires ls != []
  {
    JoinOnto(ls[0], ls[1..])
  }

  lemma {:induction false} JoinOntoSnoc(acc: string, ls: seq<string>, last: string)
    ensures JoinOnto(acc, ls + [last]) == JoinOnto(acc, ls) + ("\n" + last)
    decreases |ls|
  {
    if ls == [] {
      assert (ls + [last])[1..] == [];
    } else {
      assert (ls + [last])[0] == ls[0] && (ls + [last])[1..] == ls[1..] + [last];
      JoinOntoSnoc(acc + ("\n" + ls[0]), ls[1..], last);
    }
  }

  lemma JoinNext(acc: string, ls: seq<string>, i: nat)
    requires i < |ls|
    ensures JoinOnto(acc, ls[i..]) == JoinOnto(acc + ("\n" + ls[i]), ls[i + 1..])
  {
    assert ls[i..][0] == ls[i] && ls[i..][1..] == ls[i + 1..];
  }

  lemma JoinSnoc(ls: seq<string>, last: string)
    ensures JoinLines(ls + [last]) == if ls == [] then last else JoinLines(ls) + ("\n" + last)
  {
    if ls == [] {
      assert ([] + [last])[1..] == [];
    } else {
      assert (ls + [last])[0] == ls[0] && (ls + [last])[1..] == ls[1..] + [last];
      JoinOntoSnoc(ls[0], ls[1..], last);
    }
  }

  lemma {:induction false} JoinSplit(t: string)
    ensures JoinLines(SplitLines(t)) == t
  {
    if t != "" {
      var ls, c := SplitLines(t[..|t| - 1]), t[|t| - 1];
      JoinSplit(t[..|t| - 1]);
      assert t == t[..|t| - 1] + [c];
      if c == '\n' {
        JoinSnoc(ls, "");
        assert "\n" + "" == [c];
      } else {
        JoinExtended(ls[..|ls| - 1], ls[|ls| - 1], c);
        assert ls == ls[..|ls| - 1] + [ls[|ls| - 1]];
      }
    }
  }

  lemma JoinExtended(front: seq<string>, last: string, c: char)
    ensures JoinLines(front + [last + [c]]) == JoinLines(front + [last]) + [c]
  {
    JoinSnoc(front, last + [c]);
    JoinSnoc(front, last);
    if front != [] {
      Associate(JoinLines(front), "\n", last, [c]);
    }
  }

  lemma Associate(a: string, b: string, c: string, d: string)
    ensures a + (b + (c + d)) == a + (b + c) + d
  {
  }

  /** `after` is `before` with `added` written behind it, give or take blanks. */
  predicate Grown(before: string, after: string, added: string) {
    before <= after && SansBlanks(after) == SansBlanks(before) + SansBlanks(added)
  }

  lemma GrownTwice(a: string, b: string, c: string, x: string, y: string)
    requires Grown(a, b, x) && Grown(b, c, y)
    ensures Grown(a, c, x + y)
  {
    SansBlanksConcat(x, y);
  }

  lemma GrownBehind(before: string, lead: string, s: string)
    requires SansBlanks(lead) == ""
    ensures Grown(before, before + lead + s, s) && before + lead <= before + lead + s
    ensures s != "" ==> |before| < |before + lead + s| && (before + lead + s)[|before + lead + s| - 1] == s[|s| - 1]
  {
    var mid := before + lead;
    SansBlanksConcat(before, lead);
    assert SansBlanks(before) + "" == SansBlanks(before);
    SansBlanksConcat(mid, s);
  }

  lemma GrownThrice(base: string, start: string, listed: string, end: string, text: string)
    requires Grown(base, start, "/*") && Grown(start, listed, text) && Grown(listed, end, "*/")
    ensures Grown(base, end, "/*" + text + "*/") && start <= end
  {
    GrownTwice(base, start, listed, "/*", text);
    GrownTwice(base, listed, end, "/*" + text, "*/");
  }

  /** `line` without up to `n` of its leading spaces. */
  function StripSpaces(line: string, n: nat): string {
    if n == 0 || line == "" || line[0] != ' ' then line else StripSpaces(line[1..], n - 1)
  }

  lemma SansBlanksCons(line: string)
    requires line != "" && line[0] == ' '
    ensures SansBlanks(line) == SansBlanks(line[1..])
  {
    assert line == [line[0]] + line[1..];
    SansBlanksConcat([line[0]], line[1..]);
    assert [line[0]][..0] == "";
  }

  lemma {:induction false} StripKeepsText(line: string, n: nat)
    ensures SansBlanks(StripSpaces(line, n)) == SansBlanks(line)
  {
    if n > 0 && line != "" && line[0] == ' ' {
      StripKeepsText(line[1..], n - 1);
      SansBlanksCons(line);
    }
  }

  /** What stands behind `base` is what was added to it. */
  lemma GrownSuffix(base: string, text: string, added: string)
    requires Grown(base, base + text, added)
    ensures SansBlanks(text) == SansBlanks(added)
  {
    SansBlanksConcat(base, text);
    var whole := SansBlanks(base + text);
    assert SansBlanks(text) == whole[|SansBlanks(base)|..] == SansBlanks(added);
  }

  /** The comment was written behind `before` and the indentation `lead`, and ends no line. */
  ghost predicate CommentWritten(c: Comment, before: string, lead: string, after: string) {
    && Grown(before, after, Original(c)) && before + lead <= after
    && |before| < |after| && after[|after| - 1] != '\n'
  }

  lemma LineWritten(c: Comment, base: string, lead: string, mid: string, end: string)
    requires !c.isBlock && '\n' !in c.text
    requires Grown(base, mid, "//") && base + lead <= mid && |base| < |mid| && mid[|mid| - 1] == '/'
    requires Grown(mid, end, c.text)
    requires if c.text == "" then end == mid else |mid| < |end| && end[|end| - 1] == c.text[|c.text| - 1]
    ensures CommentWritten(c, base, lead, end)
  {
    GrownTwice(base, mid, end, "//", c.text);
  }

  /** The note for a comment that was written behind `before`. */
  ghost function WrittenNote(c: Comment, before: string, lead: string, after: string): (note: Piece)
    requires CommentWritten(c, before, lead, after)
    ensures note.Note? && note.comment == c && after == before + note.text && PieceHolds(note)
  {
    var text := after[|before|..];
    assert after == before + text;
    GrownSuffix(before, text, Original(c));
    Note(c, text)
  }

  lemma LeadOfNote(before: string, lead: string, text: string)
    requires before + lead <= before + text
    ensures lead <= text
  {
    assert lead == (before + lead)[|before|..] && text == (before + text)[|before|..];
    assert before + lead == (before + text)[..|before| + |lead|];
  }

  lemma RestAt(items: seq<Comment>, idx: nat, i: nat)
    requires idx + i < |items|
    ensures items[idx..][i] == items[|items| - (|items[idx..]| - i)]
  {
  }

  lemma TakenSnoc(items: seq<Comment>, n: nat)
    requires n < |items|
    ensures items[..n] + [items[n]] == items[..n + 1]
  {
  }

  lemma OneStatement(acc: seq<Word>, ss: seq<Statement>, lo: nat, hi: nat)
    requires |ss| == 1 && StatementsInLines(ss, lo, hi)
    ensures StatementsWords(acc, None, ss, true) == WholeStatementWords(acc, ss[0], MayJoin)
    ensures lo <= ss[0].GetSpan().startLine <= ss[0].GetSpan().endLine <= hi && StatementInLines(ss[0])
  {
    assert ss[1..] == [];
  }

  /** A comment is found between two lines exactly when one is left there. */
  lemma SomeWithin(items: seq<Comment>, seen: nat, from: nat, to: nat)
    requires Sorted(items) && seen <= |items|
    ensures AnyWithin(items[seen..], from, to) <==> !NoneLeft(items, seen, from, to + 1)
  {
    var rest := items[seen..];
    AnyWithinIsExact(rest, from, to);
    if !AnyWithin(rest, from, to) {
      forall k | seen <= k < |items| ensures items[k].startLine < from || to + 1 <= items[k].startLine {
        assert items[k] == rest[k - seen];
      }
    }
  }

  // --------------------------------------------------------------------------
  // The visitor
  // --------------------------------------------------------------------------

  class FormatVisitor {
    const output: OutputBuilder
    const comments: CommentStream
    var lastSrcLine: nat
    var lastHadTrailing: bool

    constructor (output: OutputBuilder, comments: CommentStream)
      ensures this.output == output && this.comments == comments
      ensures lastSrcLine == 0 && !lastHadTrailing
    {
      this.output, this.comments := output, comments;
      lastSrcLine, lastHadTrailing := 0, false;
    }

    /** All comments taken but the last `lag` are in the output, once each and in order, and it ends at `brace`. */
    ghost predicate HoldsAt(lag: nat, brace: Brace)
      reads this, output, comments
    {
      && output.Valid() && comments.Valid() && Lexed(comments.items)
      && output.given.items == comments.items && lag <= comments.idx
      && output.state.notes == comments.items[..comments.idx - lag]
      && output.state.sound && output.state.atStart == output.atLineStart && output.state.brace == brace
    }

    /** As `HoldsAt`, with no brace just opened. */
    ghost predicate Holds(lag: nat)
      reads this, output, comments
    {
      HoldsAt(lag, Neither)
    }

    /** As `Holds`, with the output outside any `//` comment. */
    ghost predicate Ready(lag: nat)
      reads this, output, comments
    {
      Holds(lag) && !output.state.inComment
    }

    /** No comment taken so far starts after `line`. */
    ghost predicate TakenUpTo(line: nat)
      reads comments
    {
      comments.idx <= |comments.items| && Furthest(comments.items, comments.idx) <= line
    }

    ghost function Written(): seq<Word>
      reads output
    {
      output.state.words
    }

    /** The furthest line that anything written so far has its place on. */
    ghost function Reached(): nat
      reads output
    {
      output.state.reach
    }

    /** The output is outside any `//` comment, and comments were taken no further than `line` or what is written. */
    ghost predicate Placed(line: nat)
      reads this, output, comments
    {
      Ready(0) && TakenUpTo(Max(line, Reached()))
    }

    /** The walk has gone on and is back at its indentation. */
    twostate predicate Onward()
      reads output, comments
    {
      output.indentLevel == old(output.indentLevel) && old(comments.idx) <= comments.idx
    }

    // ---- writing ----

    /** Writes program text. */
    method Put(text: string)
      requires Ready(0)
      modifies output
      ensures Ready(0) && Written() == PutWord(old(Written()), text)
      ensures output.indentLevel == old(output.indentLevel) && Reached() == old(Reached())
      ensures output.atLineStart == if text == "" then old(output.atLineStart) else EndsLine(text)
    {
      CodeBehind(output.state, text, output.given);
      output.Write(text, Code(text));
    }

    /** Whether what is in braces goes on the line. */
    ghost predicate FoldsNow(fold: Fold)
      reads this, output, comments
    {
      Folds(fold, comments.idx, output.given)
    }

    /** Writes an opening brace. */
    method PutBrace(ghost fold: Fold)
      requires Ready(0)
      modifies output
      ensures HoldsAt(0, Opened(FoldsNow(fold))) && !output.state.inComment && !output.atLineStart
      ensures Written() == OpenWord(old(Written()), fold)
      ensures output.indentLevel == old(output.indentLevel) && Reached() == old(Reached())
    {
      OpeningBehind(output.state, fold, output.given);
      output.Write("{", Opening(fold, FoldsNow(fold)));
    }

    method Space(ghost lag: nat := 0)
      requires Ready(lag)
      modifies output
      ensures Ready(lag) && Written() == old(Written()) && !output.atLineStart
      ensures output.indentLevel == old(output.indentLevel) && Reached() == old(Reached())
    {
      SpaceBehind(output.state, output.given);
      output.Write(" ", Blanks(" "));
    }

    method Line(ghost lag: nat := 0)
      requires Holds(lag)
      modifies output
      ensures Ready(lag) && Written() == old(Written())
      ensures output.indentLevel == old(output.indentLevel) && Reached() == old(Reached())
      ensures output.atLineStart
      ensures !old(output.atLineStart) ==> output.EndedLine(old(output.state).inComment)
    {
      output.WriteNewline();
      assert Written() + [] == Written();
    }

    /** Takes the line end after the last construct back and writes a space instead. */
    method JoinPreviousLine()
      requires Ready(0) && output.EndedLine(false)
      modifies output
      ensures Ready(0) && Written() == old(Written()) && !output.atLineStart
      ensures output.indentLevel == old(output.indentLevel) && Reached() == old(Reached())
    {
      NewlineLast(output.pieces, output.given);
      output.BackspaceNewline();
      Space();
    }

    method OpenBrace(ghost fold: Fold)
      requires Ready(0)
      modifies output
      ensures HoldsAt(0, Opened(FoldsNow(fold))) && !output.state.inComment && !output.atLineStart
      ensures Written() == OpenWord(old(Written()), fold)
      ensures output.indentLevel == old(output.indentLevel) && Reached() == old(Reached())
    {
      if output.config.braceSameLine {
        Space();
      } else {
        Line();
      }
      PutBrace(fold);
    }

    /** Opens a brace over the line end and indents what follows. */
    method OpenLines(ghost fold: Fold)
      requires Ready(0) && !FoldsNow(fold)
      modifies output
      ensures Ready(0) && Written() == OpenWord(old(Written()), fold)
      ensures output.indentLevel == old(output.indentLevel) + 1 && Reached() == old(Reached())
    {
      OpenBrace(fold);
      assert Written() + [] == Written();
      output.WriteNewline();
      output.Indent();
    }

    /** Stops indenting and closes the brace. */
    method CloseBrace()
      requires Ready(0)
      modifies output
      ensures Ready(0) && Written() == PutWord(old(Written()), "}") && !output.atLineStart
      ensures output.indentLevel == (if old(output.indentLevel) > 0 then old(output.indentLevel) - 1 else 0)
      ensures Reached() == old(Reached())
    {
      BraceCloses(output.state, output.given);
      output.Dedent();
      CodeBehind(output.state, "}", output.given);
      output.Write("}", Code("}"));
    }

    /** What has its place on `line` now leaves no comment for later. */
    ghost predicate TakenLeaves(place: Place, line: nat)
      reads this, output, comments
    {
      LeavesNothing(place, line, comments.idx, output.state.atStart, comments.items)
    }

    /** Records a place in the program. */
    ghost method MarkPlace(line: nat, place: Place)
      requires Holds(0) && TakenUpTo(Max(line, Reached())) && TakenLeaves(place, line)
      modifies output`pieces, output`state
      ensures Holds(0) && output.state.inComment == old(output.state.inComment)
      ensures Written() == MarkWord(old(Written()), line, place) && Reached() == Max(old(Reached()), line)
    {
      FurthestBounds(comments.items, comments.idx);
      output.Record(Mark(line, place, comments.idx));
    }

    // ---- comments ----

    /** Writes one comment; only its blanks may differ from the source. */
    method EmitComment(c: Comment, ghost lag: nat)
      requires Ready(lag) && lag > 0 && c == comments.items[comments.idx - lag]
      modifies output
      ensures Holds(lag - 1) && (output.state.inComment <==> !c.isBlock) && Reached() == old(Reached())
      ensures !output.atLineStart
      ensures Written() == old(Written()) && output.indentLevel == old(output.indentLevel)
    {
      TakenSnoc(comments.items, comments.idx - lag);
      ghost var note := EmitNote(c);
    }

    /** Writes the comment as one piece. */
    method EmitNote(c: Comment) returns (ghost note: Piece)
      requires output.Valid() && (!c.isBlock ==> '\n' !in c.text)
      requires output.state.sound && !output.state.inComment && output.state.brace.Neither?
      requires output.state.atStart == output.atLineStart
      modifies output
      ensures output.Valid() && output.indentLevel == old(output.indentLevel) && !output.atLineStart
      ensures NoteAdded(old(output.state), output.state, c)
      ensures note.Note? && note.comment == c && PieceHolds(note) && old(output.Lead("/")) <= note.text
      ensures output.pieces == old(output.pieces) + [note]
    {
      ghost var pieces, state, lead := output.pieces, output.state, output.Lead("/");
      EmitText(c);
      note := WrittenNote(c, state.text, lead, output.buffer);
      LeadOfNote(state.text, lead, note.text);
      output.Collapse(pieces, state, note);
      NoteBehind(state, note, output.given);
    }

    method EmitText(c: Comment)
      requires output.Valid() && (!c.isBlock ==> '\n' !in c.text)
      modifies output
      ensures output.Valid() && output.indentLevel == old(output.indentLevel)
      ensures CommentWritten(c, old(output.buffer), old(output.Lead("/")), output.buffer) && !output.atLineStart
    {
      if c.isBlock {
        EmitBlockText(c);
      } else {
        EmitLineText(c);
      }
    }

    method EmitLineText(c: Comment)
      requires output.Valid() && !c.isBlock && '\n' !in c.text
      modifies output
      ensures output.Valid() && output.indentLevel == old(output.indentLevel)
      ensures CommentWritten(c, old(output.buffer), old(output.Lead("/")), output.buffer) && !output.atLineStart
    {
      ghost var base, lead := output.buffer, output.Lead("//");
      WriteBlank("//");
      ghost var mid := output.buffer;
      WriteBlank(c.text);
      LineWritten(c, base, lead, mid, output.buffer);
    }

    method WriteBlank(s: string)
      requires output.Valid()
      modifies output
      ensures output.Valid() && output.indentLevel == old(output.indentLevel)
      ensures Grown(old(output.buffer), output.buffer, s)
      ensures s != "" ==> |old(output.buffer)| < |output.buffer| && output.buffer[|output.buffer| - 1] == s[|s| - 1]
      ensures s == "" ==> output.buffer == old(output.buffer)
      ensures s != "" ==> old(output.buffer + output.Lead(s)) <= output.buffer
      ensures output.atLineStart == if s == "" then old(output.atLineStart) else EndsLine(s)
    {
      IndentIsBlank(output.config, output.indentLevel);
      GrownBehind(output.buffer, output.Lead(s), s);
      output.Write(s, Blanks(s));
    }

    method EmitBlockText(c: Comment)
      requires output.Valid() && c.isBlock
      modifies output
      ensures output.Valid() && output.indentLevel == old(output.indentLevel)
      ensures CommentWritten(c, old(output.buffer), old(output.Lead("/")), output.buffer) && !output.atLineStart
    {
      ghost var base := output.buffer;
      WriteBlank("/*");
      ghost var start := output.buffer;
      EmitLines(SplitLines(c.text), if c.startCol > 0 then c.startCol - 1 else 0);
      JoinSplit(c.text);
      ghost var listed := output.buffer;
      WriteBlank("*/");
      GrownThrice(base, start, listed, output.buffer, c.text);
    }

    /** Continuation lines give up the opening line's indentation for the current one. */
    method EmitLines(lines: seq<string>, strip: nat)
      requires output.Valid() && lines != []
      modifies output
      ensures output.Valid() && output.indentLevel == old(output.indentLevel)
      ensures Grown(old(output.buffer), output.buffer, JoinLines(lines))
    {
      ghost var base := output.buffer;
      WriteBlank(lines[0]);
      var i := 1;
      ghost var done := lines[0];
      while i < |lines|
        invariant 1 <= i <= |lines|
        invariant output.Valid() && output.indentLevel == old(output.indentLevel)
        invariant Grown(base, output.buffer, done)
        invariant JoinOnto(done, lines[i..]) == JoinLines(lines)
      {
        JoinNext(done, lines, i);
        EmitContinuation(lines[i], strip, base, done);
        done := done + ("\n" + lines[i]);
        i := i + 1;
      }
    }

    method EmitContinuation(line: string, strip: nat, ghost base: string, ghost done: string)
      requires output.Valid() && Grown(base, output.buffer, done)
      modifies output
      ensures output.Valid() && output.indentLevel == old(output.indentLevel)
      ensures Grown(base, output.buffer, done + ("\n" + line))
    {
      ghost var before := output.buffer;
      SansBlanksConcat(output.buffer, "\n");
      output.WriteNewline();
      ghost var mid := output.buffer;
      StripKeepsText(line, strip);
      WriteBlank(StripSpaces(line, strip));
      GrownTwice(before, mid, output.buffer, "\n", line);
      GrownTwice(base, before, output.buffer, done, "\n" + line);
    }

    /** Emits a comment on lines of its own, keeping one blank line where the source had some. */
    method EmitOnOwnLines(c: Comment, ghost lag: nat)
      requires Ready(lag) && lag > 0 && c == comments.items[comments.idx - lag]
      modifies this, output
      ensures Ready(lag - 1) && Reached() == old(Reached())
      ensures Written() == old(Written()) && output.indentLevel == old(output.indentLevel)
    {
      if lastSrcLine > 0 && c.startLine > lastSrcLine + 1 {
        Line(lag);
      }
      EmitComment(c, lag);
      Line(lag - 1);
      lastSrcLine := c.endLine;
    }

    /** Emits every comment that starts before `line`, each on lines of its own. */
    method FlushCommentsBefore(line: nat)
      requires Placed(line)
      modifies this, output, comments
      ensures Placed(line) && Reached() == old(Reached())
      ensures Written() == old(Written()) && Onward()
      ensures NoneLeft(comments.items, comments.idx, 0, line)
    {
      var more := true;
      while more
        invariant Placed(line) && Reached() == old(Reached())
        invariant Written() == old(Written()) && Onward()
        invariant !more ==> NoneLeft(comments.items, comments.idx, 0, line)
        decreases |comments.items| - comments.idx, more
      {
        more := FlushNext(line);
      }
    }

    /** Emits the next comment if it starts before `line`. */
    method FlushNext(line: nat) returns (found: bool)
      requires Placed(line)
      modifies this, output, comments
      ensures Placed(line) && Reached() == old(Reached())
      ensures Written() == old(Written()) && Onward()
      ensures if found then old(comments.idx) < comments.idx else NoneLeft(comments.items, comments.idx, 0, line)
    {
      var c := comments.NextBeforeLine(line);
      found := c.Some?;
      assert TakenUpTo(Max(line, Reached()));
      if found {
        EmitOnOwnLines(c.value, 1);
      }
    }

    method EmitBehind(c: Comment)
      requires Ready(1) && c == comments.items[comments.idx - 1] && !lastHadTrailing
      modifies this, output
      ensures Holds(0) && (lastHadTrailing <==> output.state.inComment)
      ensures (output.state.inComment <==> !c.isBlock) && Reached() == old(Reached()) && !output.atLineStart
      ensures Written() == old(Written()) && output.indentLevel == old(output.indentLevel)
    {
      Space(1);
      EmitComment(c, 1);
      lastSrcLine := Max(lastSrcLine, c.endLine);
      if !c.isBlock {
        lastHadTrailing := true;
      }
    }

    /** Emits the comments that start on `endLine`, behind the construct that ends there. */
    method EmitTrailingComments(endLine: nat)
      requires Placed(endLine)
      modifies this, output, comments
      ensures Holds(0) && TakenUpTo(Max(endLine, Reached())) && Reached() == old(Reached())
      ensures lastHadTrailing <==> output.state.inComment
      ensures NextElsewhere(comments.items, comments.idx, endLine)
      ensures Written() == old(Written()) && Onward()
      ensures !old(output.atLineStart) ==> !output.atLineStart
    {
      lastHadTrailing := false;
      var more := true;
      while more
        invariant Holds(0) && TakenUpTo(Max(endLine, Reached())) && Reached() == old(Reached())
        invariant lastHadTrailing <==> output.state.inComment
        invariant output.state.inComment ==> NextElsewhere(comments.items, comments.idx, endLine)
        invariant !old(output.atLineStart) ==> !output.atLineStart
        invariant Written() == old(Written()) && Onward()
        invariant !more ==> NextElsewhere(comments.items, comments.idx, endLine)
        decreases |comments.items| - comments.idx, more
      {
        more := TrailNext(endLine);
      }
    }

    /** Emits the next comment if it starts on `endLine`; behind a `//` comment there is none. */
    method TrailNext(endLine: nat) returns (found: bool)
      requires Holds(0) && TakenUpTo(Max(endLine, Reached())) && (lastHadTrailing <==> output.state.inComment)
      requires output.state.inComment ==> NextElsewhere(comments.items, comments.idx, endLine)
      modifies this, output, comments
      ensures Holds(0) && TakenUpTo(Max(endLine, Reached())) && Reached() == old(Reached())
      ensures lastHadTrailing <==> output.state.inComment
      ensures output.state.inComment ==> NextElsewhere(comments.items, comments.idx, endLine)
      ensures Written() == old(Written()) && Onward()
      ensures if found then old(comments.idx) < comments.idx else NextElsewhere(comments.items, comments.idx, endLine)
      ensures !old(output.atLineStart) ==> !output.atLineStart
    {
      var c := comments.NextOnLine(endLine);
      found := c.Some?;
      if found {
        EmitBehind(c.value);
      }
    }

    /** Ends a construct: the comments that trail it, and the line end. */
    method FinishLine(endLine: nat)
      requires Placed(endLine)
      modifies this, output, comments
      ensures Placed(0) && (!old(output.atLineStart) ==> output.EndedLine(lastHadTrailing))
      ensures Written() == MarkWord(old(Written()), endLine, Ended) && Onward()
    {
      lastSrcLine := endLine;
      EmitTrailingComments(endLine);
      MarkPlace(endLine, Ended);
      Line();
    }

    predicate BlankGapBefore(line: nat)
      reads this
    {
      lastSrcLine > 0 && line > lastSrcLine + 1
    }

    // ---- the walk ----

    method FormatCode(code: Code, ghost lo: nat, ghost hi: nat)
      requires Placed(lo) && InLines(code, lo, hi)
      modifies this, output, comments
      ensures Placed(hi) && (EndsInLine(code) ==> !output.atLineStart)
      ensures Written() == CodeWords(old(Written()), code) && Onward()
      decreases code
    {
      var i := 0;
      ghost var at := lo;
      while i < |code|
        invariant 0 <= i <= |code|
        invariant Placed(at) && InLines(code[i..], at, hi)
        invariant CodeWords(Written(), code[i..]) == CodeWords(old(Written()), code)
        invariant Onward() && (i > 0 && EndsInLine(code[..i]) ==> !output.atLineStart)
      {
        CodeNext(Written(), code, i, at, hi);
        FormatFragment(code[i], at);
        at := FragmentEnd(code[i], at);
        i := i + 1;
      }
      assert code[..|code|] == code;
    }

    method FormatFragment(f: Fragment, ghost lo: nat)
      requires Placed(lo) && FragmentInLines(f, lo)
      modifies this, output, comments
      ensures Placed(FragmentEnd(f, lo)) && (EndsInLine([f]) ==> !output.atLineStart)
      ensures Written() == FragmentWords(old(Written()), f) && Onward()
      decreases f
    {
      match f
      case Text(t) => Put(t);
      case MatchPart(m) => FormatMatch(m);
      case LambdaBody(b) => FormatBlock(b);
    }

    /**
     A block on one line, or its statements on lines of their own between the braces;
     a block that holds a comment never stands on one line.
     */
    method FormatBlock(b: Block)
      requires Placed(b.span.startLine) && BlockInLines(b)
      modifies this, output, comments
      ensures Placed(b.span.endLine) && !output.atLineStart
      ensures Written() == BlockWords(old(Written()), b) && Onward()
      decreases b, 1
    {
      var hasComment := comments.HasWithin(b.span.startLine, b.span.endLine);
      SomeWithin(comments.items, comments.idx, b.span.startLine, b.span.endLine);
      if output.config.inlineSingleStatement && MayInline(b) && !hasComment {
        FormatInlineBlock(b);
      } else {
        FormatOpenBlock(b);
      }
    }

    method FormatInlineBlock(b: Block)
      requires Placed(b.span.startLine) && BlockInLines(b) && MayInline(b)
      requires FoldsNow(FoldOf(b))
      modifies this, output, comments
      ensures Placed(b.span.endLine) && !output.atLineStart
      ensures Written() == BlockWords(old(Written()), b) && Onward()
      decreases b, 0
    {
      OneStatement(OpenWord(Written(), FoldOf(b)), b.statements, b.span.startLine, b.span.endLine);
      OpenInline(FoldOf(b));
      FormatInlineStatement(b.statements[0], b.span.startLine, b.span.endLine);
      Space();
      MarkPlace(b.span.endLine, ClosingOf(b));
      Put("}");
    }

    /** Opens a brace on the line. */
    method OpenInline(ghost fold: Fold)
      requires Ready(0) && FoldsNow(fold)
      modifies output
      ensures Ready(0) && Written() == OpenWord(old(Written()), fold) && !output.atLineStart
      ensures output.indentLevel == old(output.indentLevel) && Reached() == old(Reached())
    {
      Space();
      PutBrace(fold);
      SpaceBehind(output.state, output.given);
      output.Write(" ", Blanks(" "));
    }

    method FormatInlineStatement(s: Statement, ghost from: nat, ghost to: nat)
      requires Placed(s.GetSpan().startLine) && StatementInLines(s) && from <= s.GetSpan().endLine <= to
      requires NoneLeft(comments.items, comments.idx, from, to + 1) && !output.atLineStart
      modifies this, output, comments
      ensures Placed(s.GetSpan().endLine) && NoneLeft(comments.items, comments.idx, from, to + 1)
      ensures Written() == WholeStatementWords(old(Written()), s, MayJoin) && Onward()
      decreases s, 1
    {
      MarkPlace(s.GetSpan().startLine, MayJoin);
      FormatStatement(s);
      MarkPlace(s.GetSpan().endLine, Ended);
    }

    method FormatOpenBlock(b: Block)
      requires Placed(b.span.startLine) && BlockInLines(b) && !FoldsNow(FoldOf(b))
      modifies this, output, comments
      ensures Placed(b.span.endLine) && !output.atLineStart
      ensures Written() == BlockWords(old(Written()), b) && Onward()
      decreases b, 0
    {
      OpenLines(FoldOf(b));
      lastSrcLine := Max(lastSrcLine, b.span.startLine);
      FormatStatements(b.statements, b.span.startLine, b.span.endLine, MayInline(b));
      FlushCommentsBefore(b.span.endLine);
      MarkPlace(b.span.endLine, ClosingOf(b));
      CloseBrace();
    }

    method FormatStatements(ss: seq<Statement>, ghost lo: nat, ghost hi: nat, ghost inlined: bool)
      requires Placed(lo) && StatementsInLines(ss, lo, hi)
      modifies this, output, comments
      ensures Placed(hi)
      ensures Written() == StatementsWords(old(Written()), None, ss, inlined) && Onward()
      decreases ss
    {
      var i := 0;
      var prev: Option<Statement> := None;
      ghost var at := lo;
      while i < |ss|
        invariant 0 <= i <= |ss|
        invariant prev == if i > 0 then Some(ss[i - 1]) else None
        invariant Placed(at) && StatementsInLines(ss[i..], at, hi)
        invariant StatementsWords(Written(), prev, ss[i..], inlined)
                  == StatementsWords(old(Written()), None, ss, inlined)
        invariant Onward()
        invariant i > 0 ==> output.EndedLine(lastHadTrailing)
      {
        assert ss[i..][0] == ss[i] && ss[i..][1..] == ss[i + 1..];
        FormatNext(prev, ss[i], false, inlined);
        at := ss[i].GetSpan().endLine;
        prev := Some(ss[i]);
        i := i + 1;
      }
    }

    /** A first `¶` and a chained output go to the line before, unless that ends in a `//` comment. */
    predicate Joins(prev: Option<Statement>, s: Statement)
      reads this
    {
      ((s.IsNewline() && prev.Some? && !prev.value.IsNewline()) || JoinsPreviousOutput(prev, s)) && !lastHadTrailing
    }

    /** Joins the line before, or emits the comments and the blank line that come first. */
    method StartStatement(line: nat, join: bool, forcedBlank: bool, ghost place: Place)
      requires Placed(line) && (place.Fresh? || place.MayJoin?)
      requires join ==> output.EndedLine(false) && place.MayJoin?
      modifies this, output, comments
      ensures Placed(line)
      ensures if join then !output.atLineStart else NoneLeft(comments.items, comments.idx, 0, line)
      ensures Written() == MarkWord(old(Written()), line, place) && Onward()
    {
      if join {
        JoinPreviousLine();
      } else {
        FlushCommentsBefore(line);
        if BlankGapBefore(line) || forcedBlank {
          Line();
        }
      }
      MarkPlace(line, place);
    }

    /** Formats a statement that follows `prev`, from its comments to its line end. */
    method FormatNext(prev: Option<Statement>, s: Statement, forcedBlank: bool, ghost inlined: bool)
      requires Placed(s.GetSpan().startLine) && StatementInLines(s)
      requires prev.Some? ==> output.EndedLine(lastHadTrailing)
      modifies this, output, comments
      ensures Placed(0) && output.EndedLine(lastHadTrailing)
      ensures Written() == WholeStatementWords(old(Written()), s, PlaceOf(prev, s, inlined)) && Onward()
      decreases s, 1
    {
      StartStatement(s.GetSpan().startLine, Joins(prev, s), forcedBlank, PlaceOf(prev, s, inlined));
      FormatStatement(s);
      FinishLine(s.GetSpan().endLine);
    }

    method FormatStatement(s: Statement)
      requires Placed(s.GetSpan().startLine) && StatementInLines(s)
      modifies this, output, comments
      ensures Placed(s.GetSpan().endLine) && !output.atLineStart
      ensures Written() == StatementWords(old(Written()), s) && Onward()
      decreases s, 0
    {
      match s
      case Plain(_, code, span) =>
        FormatCode(code, span.startLine, span.endLine);
      case If(_, _, _, _, _) =>
        FormatIf(s);
      case Loop(head, body, span) =>
        Put("@");
        FormatCode(head, span.startLine, body.span.startLine);
        FormatBlock(body);
      case Try(_, _, _, _) =>
        FormatTry(s);
      case FunctionDecl(signature, body, _) =>
        Put(signature);
        FormatBlock(body);
      case Match(m) =>
        FormatMatch(m);
      case TuiBlock(body, _) =>
        Put(">>|");
        Space();
        FormatBlock(body);
    }

    method FormatIf(s: Statement)
      requires s.If? && Placed(s.span.startLine) && StatementInLines(s)
      modifies this, output, comments
      ensures Placed(s.span.endLine) && !output.atLineStart
      ensures Written() == StatementWords(old(Written()), s) && Onward()
      decreases s, 0, 0
    {
      Put("?");
      Space();
      FormatCode(s.condition, s.span.startLine, s.thenBlock.span.startLine);
      FormatBlock(s.thenBlock);
      FormatElseIfs(s.elseIfs, s.thenBlock.span.endLine,
                    if s.elseBlock.Some? then s.elseBlock.value.span.startLine else s.span.endLine);
      if s.elseBlock.Some? {
        FormatElse(s.elseBlock.value);
      }
    }

    method FormatElse(b: Block)
      requires Placed(b.span.startLine) && BlockInLines(b)
      modifies this, output, comments
      ensures Placed(b.span.endLine) && !output.atLineStart
      ensures Written() == ElseWords(old(Written()), Some(b)) && Onward()
      decreases b, 2
    {
      Space();
      Put("_");
      FormatBlock(b);
    }

    method FormatElseIfs(es: seq<ElseIf>, ghost lo: nat, ghost hi: nat)
      requires Placed(lo) && ElseIfsInLines(es, lo, hi) && !output.atLineStart
      modifies this, output, comments
      ensures Placed(hi) && !output.atLineStart
      ensures Written() == ElseIfsWords(old(Written()), es) && Onward()
      decreases es
    {
      var i := 0;
      ghost var at := lo;
      while i < |es|
        invariant 0 <= i <= |es|
        invariant !output.atLineStart && Placed(at) && ElseIfsInLines(es[i..], at, hi)
        invariant ElseIfsWords(Written(), es[i..]) == ElseIfsWords(old(Written()), es)
        invariant Onward()
      {
        assert es[i..][0] == es[i] && es[i..][1..] == es[i + 1..];
        FormatElseIf(es[i], at);
        at := es[i].block.span.endLine;
        i := i + 1;
      }
    }

    method FormatElseIf(e: ElseIf, ghost lo: nat)
      requires Placed(lo) && InLines(e.condition, lo, e.block.span.startLine) && BlockInLines(e.block)
      modifies this, output, comments
      ensures Placed(e.block.span.endLine) && !output.atLineStart
      ensures Written() == BlockWords(CodeWords(PutWord(old(Written()), "_?"), e.condition), e.block) && Onward()
      decreases e
    {
      Space();
      Put("_?");
      Space();
      FormatCode(e.condition, lo, e.block.span.startLine);
      FormatBlock(e.block);
    }

    method FormatTry(s: Statement)
      requires s.Try? && Placed(s.span.startLine) && StatementInLines(s)
      modifies this, output, comments
      ensures Placed(s.span.endLine) && !output.atLineStart
      ensures Written() == StatementWords(old(Written()), s) && Onward()
      decreases s, 0, 0
    {
      Put("!?");
      FormatBlock(s.tryBlock);
      FormatCatches(s.catches, s.tryBlock.span.endLine,
                    if s.finallyBlock.Some? then s.finallyBlock.value.span.startLine else s.span.endLine);
      if s.finallyBlock.Some? {
        FormatFinally(s.finallyBlock.value);
      }
    }

    method FormatFinally(b: Block)
      requires Placed(b.span.startLine) && BlockInLines(b)
      modifies this, output, comments
      ensures Placed(b.span.endLine) && !output.atLineStart
      ensures Written() == BlockWords(PutWord(old(Written()), ":>"), b) && Onward()
      decreases b, 2
    {
      Space();
      Put(":>");
      FormatBlock(b);
    }

    method FormatCatches(cs: seq<Catch>, ghost lo: nat, ghost hi: nat)
      requires Placed(lo) && CatchesInLines(cs, lo, hi) && !output.atLineStart
      modifies this, output, comments
      ensures Placed(hi) && !output.atLineStart
      ensures Written() == CatchesWords(old(Written()), cs) && Onward()
      decreases cs
    {
      var i := 0;
      ghost var at := lo;
      while i < |cs|
        invariant 0 <= i <= |cs|
        invariant !output.atLineStart && Placed(at) && CatchesInLines(cs[i..], at, hi)
        invariant CatchesWords(Written(), cs[i..]) == CatchesWords(old(Written()), cs)
        invariant Onward()
      {
        assert cs[i..][0] == cs[i] && cs[i..][1..] == cs[i + 1..];
        Space();
        FormatCatch(cs[i], at);
        at := cs[i].block.span.endLine;
        i := i + 1;
      }
    }

    method FormatCatch(c: Catch, ghost lo: nat)
      requires Placed(lo) && CatchInLines(c, lo)
      modifies this, output, comments
      ensures Placed(c.block.span.endLine) && !output.atLineStart
      ensures Written() == CatchWords(old(Written()), c) && Onward()
      decreases c
    {
      Put(":!");
      if c.errorType.Some? {
        Space();
        Put("##");
        Put(c.errorType.value);
      }
      FormatBlock(c.block);
    }

    method FormatMatch(m: MatchExpr)
      requires Placed(m.span.startLine) && MatchInLines(m)
      modifies this, output, comments
      ensures Placed(m.span.endLine) && !output.atLineStart
      ensures Written() == MatchWords(old(Written()), m) && Onward()
      decreases m, 1
    {
      Put("??");
      Space();
      FormatCode(m.scrutinee, m.span.startLine, m.scrutineeEnd);
      FormatArms(m);
    }

    method FormatArms(m: MatchExpr)
      requires Placed(m.scrutineeEnd) && CasesInLines(m.cases, m.scrutineeEnd, m.span.endLine)
      modifies this, output, comments
      ensures Placed(m.span.endLine) && !output.atLineStart
      ensures Written() == ArmsWords(old(Written()), m)
      ensures Onward()
      decreases m, 0
    {
      OpenLines(Never);
      lastSrcLine := Max(lastSrcLine, m.scrutineeEnd);
      FormatCases(m.cases, m.scrutineeEnd, m.span.endLine);
      FlushCommentsBefore(m.span.endLine);
      MarkPlace(m.span.endLine, Fresh);
      CloseBrace();
    }

    method FormatCases(cs: seq<MatchCase>, ghost lo: nat, ghost hi: nat)
      requires Placed(lo) && CasesInLines(cs, lo, hi)
      modifies this, output, comments
      ensures Placed(hi)
      ensures Written() == CasesWords(old(Written()), cs) && Onward()
      decreases cs
    {
      var i := 0;
      ghost var at := lo;
      while i < |cs|
        invariant 0 <= i <= |cs|
        invariant Placed(at) && CasesInLines(cs[i..], at, hi)
        invariant CasesWords(Written(), cs[i..]) == CasesWords(old(Written()), cs)
        invariant Onward()
      {
        CasesNext(Written(), cs, i, at, hi);
        FormatArm(cs[i], at);
        at := cs[i].span.endLine;
        i := i + 1;
      }
    }

    /** An arm with the comments before it and those that trail it. */
    method FormatArm(c: MatchCase, ghost lo: nat)
      requires Placed(lo) && lo <= c.span.startLine && CaseInLines(c)
      modifies this, output, comments
      ensures Placed(c.span.endLine) && Onward()
      ensures Written() ==
              MarkWord(CaseWords(MarkWord(old(Written()), c.span.startLine, Fresh), c), c.span.endLine, Ended)
      decreases c, 1
    {
      StartStatement(c.span.startLine, false, false, Fresh);
      FormatCase(c);
      FinishLine(c.span.endLine);
    }

    method FormatCase(c: MatchCase)
      requires Placed(c.span.startLine) && CaseInLines(c)
      modifies this, output, comments
      ensures Placed(c.span.endLine)
      ensures Written() == CaseWords(old(Written()), c) && Onward()
      decreases c, 0
    {
      OpenCase(c.pattern);
      if c.value != [] {
        Space();
      }
      FormatCode(c.value, c.span.startLine, if c.block.Some? then c.block.value.span.startLine else c.span.endLine);
      if c.block.Some? {
        FormatBlock(c.block.value);
      }
    }

    method OpenCase(pattern: string)
      requires Ready(0)
      modifies output
      ensures Ready(0) && Written() == PutWord(PutWord(old(Written()), pattern), "=>")
      ensures output.indentLevel == old(output.indentLevel) && Reached() == old(Reached())
    {
      Put(pattern);
      Space();
      Put("=>");
    }

    // ---- whole programs ----

    method FormatImports(imports: seq<ImportStmt>)
      requires Placed(0)
      modifies this, output, comments
      ensures Placed(0)
      ensures Written() == ImportsWords(old(Written()), imports) && Onward()
    {
      var i := 0;
      while i < |imports|
        invariant 0 <= i <= |imports|
        invariant Placed(0) && Onward()
        invariant ImportsWords(Written(), imports[i..]) == ImportsWords(old(Written()), imports)
      {
        assert imports[i..][0] == imports[i] && imports[i..][1..] == imports[i + 1..];
        EmitImport(imports[i]);
        i := i + 1;
      }
    }

    method EmitImport(imp: ImportStmt)
      requires Placed(0)
      modifies this, output, comments
      ensures Placed(0)
      ensures Written() == ImportWords(old(Written()), imp) && Onward()
    {
      FlushCommentsBefore(imp.span.startLine);
      MarkPlace(imp.span.startLine, Fresh);
      FormatImport(imp);
      FinishLine(imp.span.endLine);
    }

    method FormatImport(imp: ImportStmt)
      requires Ready(0)
      modifies output
      ensures Ready(0) && output.indentLevel == old(output.indentLevel) && Reached() == old(Reached())
      ensures Written() == PutWord(PutWord(PutWord(PutWord(old(Written()), "<#"), imp.path), "=>"), imp.alias)
    {
      Put("<#");
      Space();
      Put(imp.path);
      Space();
      Put("=>");
      Space();
      Put(imp.alias);
    }

    /** The export block, with the comments before it and behind it. */
    method EmitExportBlock(b: ExportBlock)
      requires Placed(0)
      modifies this, output, comments
      ensures Placed(0) && output.EndedLine(lastHadTrailing)
      ensures Written() == ExportWords(old(Written()), b) && Onward()
    {
      FlushCommentsBefore(b.span.startLine);
      if BlankGapBefore(b.span.startLine) {
        Line();
      }
      MarkPlace(b.span.startLine, Fresh);
      FormatExportBlock(b);
      FinishLine(b.span.endLine);
    }

    method FormatExportBlock(b: ExportBlock)
      requires Ready(0)
      modifies output
      ensures Ready(0) && output.indentLevel == old(output.indentLevel) && Reached() == old(Reached())
      ensures !output.atLineStart
      ensures var open := OpenWord(PutWord(old(Written()), "#>"), FoldOfExport(b));
              Written() == PutWord(ItemsWords(open, b.items, b.commas, 0), "}")
    {
      Put("#>");
      if b.span.startLine == b.span.endLine {
        OpenInline(FoldOfExport(b));
        FormatItems(b.items, b.commas, true);
        Space();
        Put("}");
      } else {
        OpenLines(FoldOfExport(b));
        FormatItems(b.items, b.commas, false);
        CloseBrace();
      }
    }

    method FormatItems(items: seq<string>, commas: seq<bool>, inline: bool)
      requires Ready(0)
      modifies output
      ensures Ready(0) && output.indentLevel == old(output.indentLevel) && Reached() == old(Reached())
      ensures Written() == ItemsWords(old(Written()), items, commas, 0)
    {
      var i := 0;
      while i < |items|
        invariant 0 <= i <= |items|
        invariant Ready(0) && output.indentLevel == old(output.indentLevel) && Reached() == old(Reached())
        invariant ItemsWords(Written(), items, commas, i) == ItemsWords(old(Written()), items, commas, 0)
      {
        if inline && i > 0 {
          Space();
        }
        Put(items[i]);
        Put(if CommaAfter(commas, i) then "," else "");
        if !inline {
          Line();
        }
        i := i + 1;
      }
    }

    /** The statements of a file, and its export block where the source has it among them. */
    method FormatTop(ss: seq<Statement>, block: Option<ExportBlock>)
      requires Placed(0) && forall i :: 0 <= i < |ss| ==> StatementInLines(ss[i])
      modifies this, output, comments
      ensures Placed(0)
      ensures Written() == TopWords(old(Written()), None, ss, block) && Onward()
    {
      var pending := block;
      var i := 0;
      var prev: Option<Statement> := None;
      while i < |ss|
        invariant 0 <= i <= |ss|
        invariant prev == if i > 0 then Some(ss[i - 1]) else None
        invariant Placed(0) && Onward()
        invariant TopWords(Written(), prev, ss[i..], pending) == TopWords(old(Written()), None, ss, block)
        invariant i > 0 ==> output.EndedLine(lastHadTrailing)
      {
        TopNext(Written(), prev, ss, i, pending);
        pending := FormatTopNext(prev, ss[i], pending);
        prev := Some(ss[i]);
        i := i + 1;
      }
      if pending.Some? {
        EmitExportBlock(pending.value);
      }
    }

    /** Formats a statement of a file, behind the export block if that starts before it. */
    method FormatTopNext(prev: Option<Statement>, s: Statement, pending: Option<ExportBlock>)
      returns (left: Option<ExportBlock>)
      requires Placed(0) && StatementInLines(s)
      requires prev.Some? ==> output.EndedLine(lastHadTrailing)
      modifies this, output, comments
      ensures left == LeftPending(pending, s)
      ensures Written() == NextWords(old(Written()), prev, s, pending)
      ensures Placed(0) && output.EndedLine(lastHadTrailing) && Onward()
    {
      left := pending;
      if pending.Some? && pending.value.span.startLine < s.GetSpan().startLine {
        EmitExportBlock(pending.value);
        left := None;
      }
      var forcedBlank := prev.Some? && (s.FunctionDecl? || prev.value.FunctionDecl?) && !s.IsNewline();
      FormatNext(prev, s, forcedBlank, false);
    }

    /** Formats a whole program: its text, and every comment. */
    method FormatProgram(p: Program)
      requires Ready(0) && comments.idx == 0 && Written() == [] && PartsInLines(p)
      modifies this, output, comments
      ensures Ready(0) && comments.idx == |comments.items|
      ensures Written() == ProgramWords(p) && output.indentLevel == old(output.indentLevel)
    {
      FormatHeader(p);
      FormatBody(p);
      CloseModule(p);
      EmitRest();
      ProgramWordsBySection(p);
    }

    method CloseModule(p: Program)
      requires Placed(0)
      modifies this, output, comments
      ensures Ready(0) && Written() == FooterWords(old(Written()), p)
      ensures output.indentLevel ==
              if p.moduleDecl.Some? && old(output.indentLevel) > 0 then old(output.indentLevel) - 1
              else old(output.indentLevel)
    {
      if p.moduleDecl.Some? {
        FlushCommentsBefore(p.moduleDecl.value.span.endLine);
        CloseFile(p.moduleDecl.value.span.endLine);
      }
    }

    method CloseFile(line: nat)
      requires Placed(line) && NoneLeft(comments.items, comments.idx, 0, line)
      modifies output
      ensures Ready(0) && Written() == PutWord(MarkWord(old(Written()), line, Fresh), "}")
      ensures output.indentLevel == if old(output.indentLevel) > 0 then old(output.indentLevel) - 1 else 0
    {
      MarkPlace(line, Fresh);
      CloseBrace();
      Line();
    }

    method FormatHeader(p: Program)
      requires Placed(0) && Written() == []
      modifies this, output, comments
      ensures Placed(0) && Written() == HeaderWords(p)
      ensures output.indentLevel == old(output.indentLevel) + (if p.moduleDecl.Some? then 1 else 0)
    {
      if p.moduleDecl.Some? {
        var line := p.moduleDecl.value.span.startLine;
        FlushCommentsBefore(line);
        MarkPlace(line, Fresh);
        OpenModule(p.moduleDecl.value.name);
        lastSrcLine := line;
      }
    }

    method OpenModule(name: string)
      requires Ready(0)
      modifies output
      ensures Ready(0) && output.indentLevel == old(output.indentLevel) + 1 && Reached() == old(Reached())
      ensures Written() == OpenWord(PutWord(PutWord(old(Written()), "#"), name), Never)
    {
      Put("#");
      Space();
      Put(name);
      OpenLines(Never);
    }

    method FormatBody(p: Program)
      requires Placed(0) && PartsInLines(p)
      modifies this, output, comments
      ensures Placed(0) && Onward()
      ensures Written() ==
              if ExportFirst(p) then
                TopWords(ImportsWords(ExportWords(old(Written()), ExportOf(p).value), p.imports),
                         None, p.statements, None)
              else
                TopWords(ImportsWords(old(Written()), p.imports), None, p.statements, ExportOf(p))
    {
      if ExportFirst(p) {
        EmitExportBlock(ExportOf(p).value);
      }
      FormatImports(p.imports);
      FormatTop(p.statements, if ExportFirst(p) then None else ExportOf(p));
    }

    /** The comments after everything else. */
    method EmitRest()
      requires Ready(0)
      modifies this, output, comments
      ensures Ready(0) && comments.idx == |comments.items|
      ensures Written() == old(Written()) && output.indentLevel == old(output.indentLevel)
    {
      var rest := comments.DrainRest();
      var i := 0;
      while i < |rest|
        invariant 0 <= i <= |rest|
        invariant Ready(|rest| - i) && comments.idx == |comments.items|
        invariant Written() == old(Written()) && output.indentLevel == old(output.indentLevel)
      {
        RestAt(comments.items, old(comments.idx), i);
        EmitOnOwnLines(rest[i], |rest| - i);
        i := i + 1;
      }
    }
  }

  // --------------------------------------------------------------------------
  // From a program and its tokens to the formatted text
  // --------------------------------------------------------------------------

  /** The comments of a token list in the order they are printed. */
  function CommentsInOrder(tokens: seq<Token>): seq<Comment> {
    SortByPosition(CommentsOf(tokens))
  }

  /** The words are the keywords and texts of the program's tokens, each once and in order. */
  predicate ShowsProgram(words: seq<Word>, p: Program) {
    Contents.Shown(words) == Contents.Spelled([], Contents.ProgramTokens(p))
  }

  /**
   `text` consists of `pieces`, finished: all of the program's text in order, which
   is that of its tokens, and all of its comments, each once and in order, with
   nothing but blanks and line ends between them. Each piece fits where it stands: comments keep their places,
   and a line starts with one indentation for each brace that is open over a line
   end. Every `//` comment runs to a line end of `text`.
   */
  ghost predicate Faithful(p: Program, given: Given, pieces: seq<Piece>, text: string) {
    var whole := Summarize(pieces, given);
    && whole.words == ProgramWords(p) && ShowsProgram(whole.words, p)
    && whole.notes == given.items && Finished(whole.text, text)
    && Depth(pieces) == 0
    && (forall k :: 0 <= k < |pieces| ==> PieceFits(pieces[k], Summarize(pieces[..k], given), given))
    && (forall k :: 0 <= k < |pieces| && IsLineNote(pieces[k]) ==>
          Summarize(pieces[..k], given).text + pieces[k].text + "\n" <= text)
  }

  /** All that the walk keeps, once it is done: the words, the comments, and soundness outside any comment. */
  ghost predicate Kept(p: Program, given: Given, pieces: seq<Piece>, text: string) {
    var whole := Summarize(pieces, given);
    && whole.words == ProgramWords(p) && whole.notes == given.items && Finished(whole.text, text)
    && whole.sound && !whole.inComment && whole.depth == 0
  }

  lemma LineNoteStays(given: Given, pieces: seq<Piece>, text: string, k: nat)
    requires Summarize(pieces, given).sound && !Summarize(pieces, given).inComment
    requires Finished(Summarize(pieces, given).text, text) && k < |pieces|
    requires PieceFits(pieces[k], Summarize(pieces[..k], given), given)
    ensures IsLineNote(pieces[k]) ==> Summarize(pieces[..k], given).text + pieces[k].text + "\n" <= text
  {
    if IsLineNote(pieces[k]) {
      LineNoteInText(pieces, given, k);
      FinishedKeeps(Summarize(pieces, given).text, text, Summarize(pieces[..k], given).text + pieces[k].text);
    }
  }

  lemma SoundIsFaithful(p: Program, given: Given, pieces: seq<Piece>, text: string)
    ensures Kept(p, given, pieces, text) ==> Faithful(p, given, pieces, text)
  {
    if !Kept(p, given, pieces, text) {
      return;
    }
    Contents.ProgramPrinted(p);
    SummaryDepth(pieces, given);
    forall k | 0 <= k < |pieces|
      ensures PieceFits(pieces[k], Summarize(pieces[..k], given), given)
      ensures IsLineNote(pieces[k]) ==> Summarize(pieces[..k], given).text + pieces[k].text + "\n" <= text
    {
      FitsAt(pieces, given, k);
      LineNoteStays(given, pieces, text, k);
    }
  }

  /** No comment stands before a place in the program that lies on an earlier line than the comment. */
  ghost predicate CommentsInPlace(items: seq<Comment>, pieces: seq<Piece>) {
    forall j, k :: 0 <= k < |pieces| && pieces[k].Mark? && 0 <= j < pieces[k].seen && j < |items| ==>
      items[j].startLine <= pieces[k].line
  }

  /** In a file that is printed in the order of its source, comments keep their places among the constructs. */
  lemma InOrderCommentsKeepPlaces(p: Program, given: Given, pieces: seq<Piece>, text: string)
    requires ProgramInLines(p)
    requires !ExportAmongImports(p) && !ImportBehindStatement(p) && !ExportBesideStatement(p)
    ensures Faithful(p, given, pieces, text) ==> CommentsInPlace(given.items, pieces)
  {
    if !Faithful(p, given, pieces, text) {
      return;
    }
    PrintedInSourceOrder(p);
    PlacesAscend(p);
    forall j, k | 0 <= k < |pieces| && pieces[k].Mark? && 0 <= j < pieces[k].seen && j < |given.items|
      ensures given.items[j].startLine <= pieces[k].line
    {
      MarksAscend(pieces, given, k);
      assert PieceFits(pieces[k], Summarize(pieces[..k], given), given);
    }
  }

  method Format(p: Program, tokens: seq<Token>, config: Config) returns (text: string)
    requires Lexed(CommentsInOrder(tokens)) && PartsInLines(p)
    ensures exists pieces :: Faithful(p, Given(CommentsInOrder(tokens), config), pieces, text)
  {
    var comments := new CommentStream.FromTokens(tokens);
    var output := new OutputBuilder(config, comments.items);
    var visitor := new FormatVisitor(output, comments);
    visitor.FormatProgram(p);
    text := output.Finish();
    SoundIsFaithful(p, output.given, output.pieces, text);
  }
}
