/**
 The formatter's output: the text being built, and beside it, for the proofs, the
 pieces it was built from.
 */
module Output {
  import opened Options
  import opened Comments

  datatype Config = Config(indentSize: nat, useSpaces: bool, braceSameLine: bool, inlineSingleStatement: bool)

  function Repeat(c: char, n: nat): string {
    if n == 0 then "" else [c] + Repeat(c, n - 1)
  }

  function IndentString(config: Config, level: nat): string {
    if config.useSpaces then Repeat(' ', config.indentSize * level) else Repeat('\t', level)
  }

  lemma {:induction false} RepeatHolds(c: char, n: nat)
    ensures |Repeat(c, n)| == n && forall i :: 0 <= i < n ==> Repeat(c, n)[i] == c
  {
    if n > 0 {
      RepeatHolds(c, n - 1);
    }
  }

  /** Indentation is a tab for each level, or as many spaces for each level as configured. */
  lemma IndentHolds(config: Config, level: nat)
    ensures var s := IndentString(config, level);
            && |s| == (if config.useSpaces then config.indentSize * level else level)
            && forall i :: 0 <= i < |s| ==> s[i] == if config.useSpaces then ' ' else '\t'
  {
    if config.useSpaces {
      RepeatHolds(' ', config.indentSize * level);
    } else {
      RepeatHolds('\t', level);
    }
  }

  lemma {:induction false} RepeatAdds(c: char, m: nat, n: nat)
    ensures Repeat(c, m + n) == Repeat(c, m) + Repeat(c, n)
  {
    if m > 0 {
      RepeatAdds(c, m - 1, n);
    }
  }

  /** Each level adds its indentation to that of the levels around it. */
  lemma IndentAdds(config: Config, m: nat, n: nat)
    ensures IndentString(config, m + n) == IndentString(config, m) + IndentString(config, n)
  {
    if config.useSpaces {
      assert config.indentSize * (m + n) == config.indentSize * m + config.indentSize * n;
      RepeatAdds(' ', config.indentSize * m, config.indentSize * n);
    } else {
      RepeatAdds('\t', m, n);
    }
  }

  // --------------------------------------------------------------------------
  // Pieces
  // --------------------------------------------------------------------------

  /**
   How a place in the program stands to the comments: what starts a line of its own,
   what may be joined to the line before or stand on its block's line, the end of
   what is followed by trailing comments, and the closing brace of a block that
   starts on line `from` and may stand on one line.
   */
  datatype Place = Fresh | MayJoin | Ended | Closes(from: nat)

  /**
   Whether what is in braces stands on one line: never, always, or if that is
   configured and no comment starts on the source lines `from` to `to`.
   */
  datatype Fold = Never | Always | Quiet(from: nat, to: nat)

  /**
   What a stretch of the output is: program text, an opening brace, blanks, a
   printed comment or a line end. The rest print nothing: a `Mark` stands for a place on `line` of the
   source, after `seen` comments; `Deeper` and `Shallower` stand where a brace that
   is open over a line end begins and stops indenting.
   */
  datatype Piece =
    | Code(text: string)
    | Opening(fold: Fold, folded: bool)
    | Blanks(text: string)
    | Note(comment: Comment, text: string)
    | Newline
    | Mark(line: nat, place: Place, seen: nat)
    | Deeper
    | Shallower

  /** The program text in the output, its opening braces, and the places where its constructs begin and end. */
  datatype Word = Source(text: string) | Opens(fold: Fold) | At(line: nat, place: Place)

  function Render(p: Piece): string {
    match p
    case Code(t) => t
    case Opening(_, _) => "{"
    case Blanks(t) => t
    case Note(_, t) => t
    case Newline => "\n"
    case _ => ""
  }

  function WordOf(p: Piece): seq<Word> {
    match p
    case Code(t) => [Source(t)]
    case Opening(fold, _) => [Opens(fold)]
    case Mark(line, place, _) => [At(line, place)]
    case _ => []
  }

  function Max(a: nat, b: nat): nat {
    if a < b then b else a
  }

  /** The furthest line of the places in `ws`. */
  function Reach(ws: seq<Word>): nat {
    if ws == [] then 0
    else
      var front, last := Reach(ws[..|ws| - 1]), ws[|ws| - 1];
      if last.At? then Max(front, last.line) else front
  }

  /** No place in `ws` lies before an earlier one. */
  predicate Ascends(ws: seq<Word>) {
    ws == [] ||
    var front, last := ws[..|ws| - 1], ws[|ws| - 1];
    Ascends(front) && (last.At? ==> Reach(front) <= last.line)
  }

  predicate IsLineNote(p: Piece) {
    p.Note? && !p.comment.isBlock
  }

  /** No comment of `items` that starts on a line in `from .. to`, `to` excluded, is left behind the first `seen`. */
  ghost predicate NoneLeft(items: seq<Comment>, seen: nat, from: nat, to: nat) {
    forall k :: seen <= k < |items| ==> items[k].startLine < from || to <= items[k].startLine
  }

  /** The comment behind the first `seen` does not start on `line`. */
  predicate NextElsewhere(items: seq<Comment>, seen: nat, line: nat) {
    seen < |items| ==> items[seen].startLine != line
  }

  /** What has its place on `line`, at the start of an output line or not, does not leave a comment for later. */
  ghost predicate LeavesNothing(place: Place, line: nat, seen: nat, atStart: bool, items: seq<Comment>) {
    match place
    case Fresh => NoneLeft(items, seen, 0, line)
    case MayJoin => atStart ==> NoneLeft(items, seen, 0, line)
    case Ended => NextElsewhere(items, seen, line)
    case Closes(from) => NoneLeft(items, seen, from, line)
  }

  /**
   The comments before a mark are the first `seen` of `items`. None of them starts
   after both the mark's line and all earlier marks. What is left for later does not
   start before a fresh line, nor before what was not joined to the line before, nor
   between a block's braces, nor trails what has ended.
   */
  ghost predicate MarkHolds(m: Piece, s: Summary, items: seq<Comment>)
    requires m.Mark?
  {
    && m.seen == |s.notes| <= |items|
    && (forall k :: 0 <= k < m.seen ==> items[k].startLine <= Max(m.line, s.reach))
    && LeavesNothing(m.place, m.line, m.seen, s.atStart, items)
  }

  // --------------------------------------------------------------------------
  // Comments as they are printed
  // --------------------------------------------------------------------------

  /** The comment as the source spells it. */
  function Original(c: Comment): string {
    if c.isBlock then "/*" + c.text + "*/" else "//" + c.text
  }

  /** Reading a comment by its markers: whether it is a block, and what stands behind or between them. */
  function ReadComment(s: string): Option<(bool, string)> {
    if |s| >= 2 && s[0] == '/' && s[1] == '/' then Some((false, s[2..]))
    else if |s| >= 4 && s[0] == '/' && s[1] == '*' && s[|s| - 2] == '*' && s[|s| - 1] == '/' then
      Some((true, s[2..|s| - 2]))
    else None
  }

  lemma OriginalReadsBack(c: Comment)
    ensures ReadComment(Original(c)) == Some((c.isBlock, c.text))
  {
    var s := Original(c);
    if c.isBlock {
      assert s[2..|s| - 2] == c.text;
    }
  }

  predicate IsBlank(c: char) {
    c == ' ' || c == '\t'
  }

  function SansBlanks(s: string): string {
    if s == [] then []
    else SansBlanks(s[..|s| - 1]) + (if IsBlank(s[|s| - 1]) then [] else [s[|s| - 1]])
  }

  lemma {:induction false} SansBlanksConcat(a: string, b: string)
    ensures SansBlanks(a + b) == SansBlanks(a) + SansBlanks(b)
    decreases |b|
  {
    if b == [] {
      assert a + b == a;
    } else {
      SansBlanksConcat(a, b[..|b| - 1]);
      assert (a + b)[..|a + b| - 1] == a + b[..|b| - 1];
    }
  }

  predicate AllBlank(s: string) {
    forall i :: 0 <= i < |s| ==> IsBlank(s[i])
  }

  predicate NoneBlank(s: string) {
    forall i :: 0 <= i < |s| ==> !IsBlank(s[i])
  }

  lemma BlanksSnoc(s: string, c: char)
    ensures AllBlank(s + [c]) <==> AllBlank(s) && IsBlank(c)
    ensures NoneBlank(s + [c]) <==> NoneBlank(s) && !IsBlank(c)
  {
    assert (s + [c])[|s|] == c;
    assert forall i :: 0 <= i < |s| ==> (s + [c])[i] == s[i];
  }

  /** Nothing is left of blanks alone, and all of what holds none; with `SansBlanksConcat` that tells the rest. */
  lemma {:induction false} SansBlanksIsExact(s: string)
    ensures SansBlanks(s) == "" <==> AllBlank(s)
    ensures NoneBlank(s) ==> SansBlanks(s) == s
  {
    if s != "" {
      SansBlanksIsExact(s[..|s| - 1]);
      BlanksSnoc(s[..|s| - 1], s[|s| - 1]);
      assert s == s[..|s| - 1] + [s[|s| - 1]];
    }
  }

  lemma {:induction false} RepeatIsBlank(c: char, n: nat)
    requires c == ' ' || c == '\t'
    ensures SansBlanks(Repeat(c, n)) == ""
  {
    if n > 0 {
      RepeatIsBlank(c, n - 1);
      SansBlanksConcat([c], Repeat(c, n - 1));
      assert [c][..0] == "";
    }
  }

  lemma IndentIsBlank(config: Config, level: nat)
    ensures SansBlanks(IndentString(config, level)) == ""
  {
    if config.useSpaces {
      RepeatIsBlank(' ', config.indentSize * level);
    } else {
      RepeatIsBlank('\t', level);
    }
  }

  /**
   Blanks are blank, and a printed comment differs from its source in blanks only
   and does not end a line.
   */
  predicate PieceHolds(p: Piece) {
    match p
    case Blanks(text) => SansBlanks(text) == ""
    case Note(c, text) => SansBlanks(text) == SansBlanks(Original(c)) && text != "" && text[|text| - 1] != '\n'
    case _ => true
  }

  // --------------------------------------------------------------------------
  // Reading a list of pieces from the start
  // --------------------------------------------------------------------------

  /**
   Whether the output stands right behind an opening brace, and whether what is in the
   braces stands on one line, or has a closing brace to come.
   */
  datatype Brace = Neither | Opened(folded: bool) | Closing

  /**
   What a list of pieces amounts to: its text, its program text and marks, the
   furthest line marked, its comments, whether it ends inside a `//` comment or at
   the start of a line, how many braces are open over a line end, and whether all
   pieces so far hold.
   */
  datatype Summary = Summary(
    text: string, words: seq<Word>, reach: nat, notes: seq<Comment>,
    inComment: bool, atStart: bool, depth: nat, brace: Brace, sound: bool)

  /** What an output is written for: the comments of its source, and the configuration. */
  datatype Given = Given(items: seq<Comment>, config: Config)

  predicate EndsLine(text: string) {
    text != "" && text[|text| - 1] == '\n'
  }

  /** Whatever starts a line of the output starts with the indentation of its depth. */
  predicate Indented(p: Piece, s: Summary, config: Config) {
    s.atStart && Render(p) != "" && Render(p)[0] != '\n' ==> IndentString(config, s.depth) <= Render(p)
  }

  /** What is in braces goes on the line behind `seen` comments. */
  ghost predicate Folds(fold: Fold, seen: nat, given: Given) {
    match fold
    case Never => false
    case Always => true
    case Quiet(from, to) => given.config.inlineSingleStatement && NoneLeft(given.items, seen, from, to + 1)
  }

  /**
   An opening brace ends its line unless what is in the braces stands on one. Depth
   begins behind that line end, there only, and stops before a closing brace.
   */
  predicate BraceHolds(p: Piece, s: Summary) {
    && (s.brace.Opened? && !s.atStart ==> if s.brace.folded then p.Blanks? else p.Newline?)
    && (p.Deeper? <==> s.brace.Opened? && s.atStart)
    && (s.brace.Closing? ==> p.Blanks? || p == Code("}"))
  }

  function NextBrace(p: Piece, brace: Brace): Brace {
    match p
    case Opening(_, folded) => Opened(folded)
    case Newline => brace
    case Mark(_, _, _) => brace
    case Blanks(_) => if brace.Closing? then Closing else Neither
    case Shallower => Closing
    case _ => Neither
  }

  /** A `//` comment is closed by a line end, and the piece holds where it stands. */
  ghost predicate PieceFits(p: Piece, s: Summary, given: Given) {
    && (s.inComment ==> p.Newline? || p.Mark?) && PieceHolds(p)
    && (p.Mark? ==> MarkHolds(p, s, given.items))
    && (p.Opening? ==> (p.folded <==> Folds(p.fold, |s.notes|, given)))
    && Indented(p, s, given.config) && BraceHolds(p, s)
  }

  ghost function Step(s: Summary, p: Piece, given: Given): Summary {
    Summary(s.text + Render(p),
            s.words + WordOf(p),
            if p.Mark? then Max(s.reach, p.line) else s.reach,
            if p.Note? then s.notes + [p.comment] else s.notes,
            if p.Mark? then s.inComment else IsLineNote(p),
            if Render(p) == "" then s.atStart else EndsLine(Render(p)),
            NextDepth(p, s.depth),
            NextBrace(p, s.brace),
            s.sound && PieceFits(p, s, given))
  }

  ghost function Summarize(ps: seq<Piece>, given: Given): Summary {
    if ps == [] then Summary("", [], 0, [], false, true, 0, Neither, true)
    else Step(Summarize(ps[..|ps| - 1], given), ps[|ps| - 1], given)
  }

  lemma SummarizeAppend(ps: seq<Piece>, p: Piece, given: Given)
    ensures Summarize(ps + [p], given) == Step(Summarize(ps, given), p, given)
  {
    assert (ps + [p])[..|ps|] == ps;
  }

  /** Adding `p` behind the indentation `lead`, if there is any. */
  ghost function StepBehind(s: Summary, lead: string, p: Piece, given: Given): Summary {
    Step(if lead == "" then s else Step(s, Blanks(lead), given), p, given)
  }

  /** The indentation that text gets where it is written. */
  ghost function LeadAt(s: Summary, text: string, given: Given): string {
    if text != "" && s.atStart && text[0] != '\n' then IndentString(given.config, s.depth) else ""
  }

  /** Indentation fits where a line starts. */
  lemma LeadFits(s: Summary, given: Given)
    requires s.sound && !s.inComment && s.atStart && !s.brace.Opened? && IndentString(given.config, s.depth) != ""
    ensures var r := Step(s, Blanks(IndentString(given.config, s.depth)), given);
            && r.sound && !r.inComment && r.notes == s.notes && r.reach == s.reach && r.depth == s.depth
            && r.words == s.words && !r.atStart && (r.brace.Closing? <==> s.brace.Closing?)
  {
    IndentIsBlank(given.config, s.depth);
    BlankEndsNoLine(IndentString(given.config, s.depth));
    assert s.words + [] == s.words;
  }

  lemma BlankEndsNoLine(text: string)
    requires SansBlanks(text) == ""
    ensures !EndsLine(text)
  {
  }

  /** Program text, indented where it starts a line, fits. */
  lemma CodeBehind(s: Summary, text: string, given: Given)
    requires s.sound && !s.inComment && !s.brace.Opened? && (s.brace.Closing? ==> text == "}")
    ensures var r := StepBehind(s, LeadAt(s, text, given), Code(text), given);
            text != "" ==>
              && r.sound && !r.inComment && r.notes == s.notes && r.reach == s.reach && r.depth == s.depth
              && r.words == s.words + [Source(text)] && r.atStart == EndsLine(text)
              && r.brace.Neither?
  {
    if LeadAt(s, text, given) != "" {
      LeadFits(s, given);
    }
  }

  /** So does an opening brace. */
  lemma OpeningBehind(s: Summary, fold: Fold, given: Given)
    requires s.sound && !s.inComment && s.brace.Neither?
    ensures var folded := Folds(fold, |s.notes|, given);
            var r := StepBehind(s, LeadAt(s, "{", given), Opening(fold, folded), given);
            && r.sound && !r.inComment && r.notes == s.notes && r.reach == s.reach && r.depth == s.depth
            && r.words == s.words + [Opens(fold)] && !r.atStart
            && r.brace == Opened(folded)
  {
    if LeadAt(s, "{", given) != "" {
      LeadFits(s, given);
    }
  }

  /** So does a space. */
  lemma SpaceBehind(s: Summary, given: Given)
    requires s.sound && !s.inComment && !s.brace.Closing? && (s.brace.Opened? ==> s.brace.folded && !s.atStart)
    ensures var r := StepBehind(s, LeadAt(s, " ", given), Blanks(" "), given);
            && r.sound && !r.inComment && r.notes == s.notes && r.reach == s.reach && r.depth == s.depth
            && r.words == s.words && !r.atStart && r.brace.Neither?
  {
    if LeadAt(s, " ", given) != "" {
      LeadFits(s, given);
    }
    RepeatIsBlank(' ', 1);
    assert s.words + [] == s.words;
  }

  /** Nothing has changed but for the comment. */
  predicate NoteAdded(s: Summary, r: Summary, c: Comment) {
    && r.sound && (r.inComment <==> !c.isBlock) && r.notes == s.notes + [c]
    && r.reach == s.reach && r.depth == s.depth && r.words == s.words && !r.atStart && r.brace.Neither?
  }

  /** So does a comment, behind its indentation. */
  lemma NoteBehind(s: Summary, p: Piece, given: Given)
    requires s.sound && !s.inComment && s.brace.Neither? && p.Note? && PieceHolds(p)
    requires Indented(p, s, given.config)
    ensures NoteAdded(s, Step(s, p, given), p.comment)
  {
    assert s.words + [] == s.words;
  }

  lemma BraceCloses(s: Summary, given: Given)
    requires s.sound && !s.inComment && s.brace.Neither?
    ensures var r := Step(s, Shallower, given);
            && r.sound && !r.inComment && r.notes == s.notes && r.reach == s.reach
            && r.words == s.words && r.atStart == s.atStart && r.brace.Closing?
  {
    assert s.words + [] == s.words;
  }

  /** The pieces once the last character of the output, a line end, is taken back. */
  function PopNewline(ps: seq<Piece>): seq<Piece> {
    if ps == [] then []
    else
      var front, last := ps[..|ps| - 1], ps[|ps| - 1];
      match last
      case Newline => front
      case _ => if Render(last) == "" then PopNewline(front) + [last] else front + [Shortened(last)]
  }

  function Shortened(p: Piece): Piece
    requires Render(p) != "" && !p.Newline?
  {
    var text := Render(p)[..|Render(p)| - 1];
    match p
    case Code(_) => Code(text)
    case Opening(_, _) => Code(text)
    case Blanks(_) => Blanks(text)
    case Note(c, _) => Note(c, text)
  }

  lemma DropLastOfConcat(a: string, b: string)
    requires b != ""
    ensures (a + b)[..|a + b| - 1] == a + b[..|b| - 1]
  {
  }

  function NextDepth(p: Piece, depth: nat): nat {
    if p.Deeper? then depth + 1 else if p.Shallower? && depth > 0 then depth - 1 else depth
  }

  /** How many braces are open over a line end. */
  function Depth(ps: seq<Piece>): nat {
    if ps == [] then 0 else NextDepth(ps[|ps| - 1], Depth(ps[..|ps| - 1]))
  }

  lemma {:induction false} SummaryDepth(ps: seq<Piece>, given: Given)
    ensures Summarize(ps, given).depth == Depth(ps)
  {
    if ps != [] {
      SummaryDepth(ps[..|ps| - 1], given);
    }
  }

  lemma DepthSnoc(ps: seq<Piece>, p: Piece)
    ensures Depth(ps + [p]) == NextDepth(p, Depth(ps))
  {
    assert (ps + [p])[..|ps|] == ps;
  }

  lemma {:induction false} PopKeepsDepth(ps: seq<Piece>)
    ensures Depth(PopNewline(ps)) == Depth(ps)
  {
    if ps != [] {
      var front, last := ps[..|ps| - 1], ps[|ps| - 1];
      if Render(last) == "" {
        PopKeepsDepth(front);
        DepthSnoc(PopNewline(front), last);
      } else if !last.Newline? {
        DepthSnoc(front, Shortened(last));
      }
    }
  }

  /** What the pieces print, one behind the other. */
  function Rendered(ps: seq<Piece>): string {
    if ps == [] then "" else Rendered(ps[..|ps| - 1]) + Render(ps[|ps| - 1])
  }

  lemma {:induction false} SummaryText(ps: seq<Piece>, given: Given)
    ensures Summarize(ps, given).text == Rendered(ps)
  {
    if ps != [] {
      SummaryText(ps[..|ps| - 1], given);
    }
  }

  lemma RenderedSnoc(ps: seq<Piece>, p: Piece)
    ensures Rendered(ps + [p]) == Rendered(ps) + Render(p)
  {
    assert (ps + [p])[..|ps|] == ps;
  }

  /** What stands behind `text` once the last character of the piece is taken back. */
  lemma LastDropped(text: string, p: Piece)
    requires Render(p) != ""
    ensures (text + Render(p))[..|text + Render(p)| - 1] == if p.Newline? then text else text + Render(Shortened(p))
  {
    DropLastOfConcat(text, Render(p));
    if p.Newline? {
      assert text + "\n"[..0] == text;
    }
  }

  lemma {:induction false} PopDropsLast(ps: seq<Piece>)
    requires Rendered(ps) != ""
    ensures Rendered(PopNewline(ps)) == Rendered(ps)[..|Rendered(ps)| - 1]
  {
    var front, last := ps[..|ps| - 1], ps[|ps| - 1];
    if Render(last) == "" {
      assert Rendered(front) + "" == Rendered(front);
      PopDropsLast(front);
      RenderedSnoc(PopNewline(front), last);
    } else {
      LastDropped(Rendered(front), last);
      if !last.Newline? {
        RenderedSnoc(front, Shortened(last));
      }
    }
  }

  lemma PopNewlinePops(ps: seq<Piece>, given: Given)
    requires Summarize(ps, given).text != ""
    ensures Summarize(PopNewline(ps), given).text
            == Summarize(ps, given).text[..|Summarize(ps, given).text| - 1]
  {
    SummaryText(ps, given);
    SummaryText(PopNewline(ps), given);
    PopDropsLast(ps);
  }

  // --------------------------------------------------------------------------
  // The builder
  // --------------------------------------------------------------------------

  function EndsWith(s: string, suffix: string): bool {
    |suffix| <= |s| && s[|s| - |suffix|..] == suffix
  }

  /** What holds of a list of pieces holds of every beginning of it. */
  lemma {:induction false} SummarizePrefix(ps: seq<Piece>, given: Given, k: nat)
    requires k <= |ps|
    ensures Summarize(ps[..k], given).text <= Summarize(ps, given).text
    ensures Summarize(ps, given).sound ==> Summarize(ps[..k], given).sound
    decreases |ps|
  {
    if k == |ps| {
      assert ps[..k] == ps;
    } else {
      SummarizePrefix(ps[..|ps| - 1], given, k);
      assert ps[..|ps| - 1][..k] == ps[..k];
    }
  }

  lemma SummarizeNext(ps: seq<Piece>, given: Given, k: nat)
    requires k < |ps|
    ensures Summarize(ps[..k + 1], given) == Step(Summarize(ps[..k], given), ps[k], given)
  {
    assert ps[..k + 1] == ps[..k] + [ps[k]];
    SummarizeAppend(ps[..k], ps[k], given);
  }

  lemma FitsAt(ps: seq<Piece>, given: Given, k: nat)
    requires Summarize(ps, given).sound && k < |ps|
    ensures PieceFits(ps[k], Summarize(ps[..k], given), given)
  {
    SummarizePrefix(ps, given, k + 1);
    SummarizeNext(ps, given, k);
  }

  lemma ReachSnoc(ws: seq<Word>, w: Word)
    ensures Reach(ws + [w]) == if w.At? then Max(Reach(ws), w.line) else Reach(ws)
    ensures Ascends(ws + [w]) <==> Ascends(ws) && (w.At? ==> Reach(ws) <= w.line)
  {
    assert (ws + [w])[..|ws|] == ws;
  }

  /** The reach is that of the words. */
  lemma {:induction false} ReachOfWords(ps: seq<Piece>, given: Given)
    ensures Summarize(ps, given).reach == Reach(Summarize(ps, given).words)
  {
    if ps != [] {
      var front, last := Summarize(ps[..|ps| - 1], given), ps[|ps| - 1];
      ReachOfWords(ps[..|ps| - 1], given);
      WordsBehind(front.words, last);
    }
  }

  lemma WordsBehind(ws: seq<Word>, p: Piece)
    ensures Reach(ws + WordOf(p)) == if p.Mark? then Max(Reach(ws), p.line) else Reach(ws)
    ensures Ascends(ws + WordOf(p)) ==> Ascends(ws) && (p.Mark? ==> Reach(ws) <= p.line)
  {
    if WordOf(p) == [] {
      assert ws + [] == ws;
    } else {
      ReachSnoc(ws, WordOf(p)[0]);
    }
  }

  /** When the places in the words ascend, no mark lies before an earlier one. */
  lemma {:induction false} MarksAscend(ps: seq<Piece>, given: Given, k: nat)
    requires Ascends(Summarize(ps, given).words) && k < |ps| && ps[k].Mark?
    ensures Summarize(ps[..k], given).reach <= ps[k].line
    decreases |ps|
  {
    WordsBehind(Summarize(ps[..|ps| - 1], given).words, ps[|ps| - 1]);
    if k == |ps| - 1 {
      ReachOfWords(ps[..k], given);
    } else {
      MarksAscend(ps[..|ps| - 1], given, k);
      assert ps[..|ps| - 1][..k] == ps[..k];
    }
  }

  /** A `//` comment that ends at `end` is still open, or a line end follows it. */
  predicate StillOpenOrClosed(s: Summary, end: string) {
    (s.inComment && s.text == end) || end + "\n" <= s.text
  }

  lemma OpenOrClosedNext(s: Summary, end: string, p: Piece, given: Given)
    requires StillOpenOrClosed(s, end) && Step(s, p, given).sound
    ensures StillOpenOrClosed(Step(s, p, given), end)
  {
    if s.inComment && s.text == end {
      assert s.text + "" == s.text;
    }
  }

  /** Where the output stands inside a `//` comment, a line end follows unless the comment stays open. */
  lemma {:induction false} CommentCloses(ps: seq<Piece>, given: Given, k: nat)
    requires Summarize(ps, given).sound && k <= |ps| && Summarize(ps[..k], given).inComment
    ensures StillOpenOrClosed(Summarize(ps, given), Summarize(ps[..k], given).text)
    decreases |ps|
  {
    if k == |ps| {
      assert ps[..k] == ps;
    } else {
      var front := ps[..|ps| - 1];
      assert front[..k] == ps[..k];
      CommentCloses(front, given, k);
      OpenOrClosedNext(Summarize(front, given), Summarize(ps[..k], given).text, ps[|ps| - 1], given);
    }
  }

  /** In the text, a `//` comment stands where its piece does, with a line end behind it. */
  lemma LineNoteInText(ps: seq<Piece>, given: Given, k: nat)
    requires Summarize(ps, given).sound && !Summarize(ps, given).inComment
    requires k < |ps| && IsLineNote(ps[k])
    ensures Summarize(ps[..k], given).text + ps[k].text + "\n" <= Summarize(ps, given).text
  {
    SummarizeNext(ps, given, k);
    CommentCloses(ps, given, k + 1);
  }

  /** `text` is `whole` with its trailing line ends reduced to one, or with one added. */
  predicate Finished(whole: string, text: string) {
    && (text == "" <==> whole == "")
    && (text != "" ==> EndsWith(text, "\n") && !EndsWith(text, "\n\n"))
    && (EndsWith(whole, "\n") ==> text <= whole && forall k :: |text| <= k < |whole| ==> whole[k] == '\n')
    && (whole != "" && !EndsWith(whole, "\n") ==> text == whole + "\n")
  }

  /** Finishing a text takes away no line end that closes something. */
  lemma FinishedKeeps(whole: string, text: string, front: string)
    requires Finished(whole, text) && front + "\n" <= whole
    requires front != "" && front[|front| - 1] != '\n'
    ensures front + "\n" <= text
  {
    var n := |front|;
    assert whole[n - 1] == front[n - 1];
    if EndsWith(whole, "\n") {
      assert |text| >= n;
      assert text[|text| - 1..][0] == '\n';
      assert text == whole[..|text|];
    }
  }

  /** A line end written last can be taken back, and nothing else goes with it. */
  lemma NewlineLast(ps: seq<Piece>, given: Given)
    requires ps != [] && ps[|ps| - 1].Newline?
    ensures EndsWith(Summarize(ps, given).text, "\n") && PopNewline(ps) == ps[..|ps| - 1]
    ensures var was, now := Summarize(ps, given), Summarize(ps[..|ps| - 1], given);
            && (was.sound ==> now.sound) && now.words == was.words && now.reach == was.reach
            && now.notes == was.notes && now.depth == was.depth && now.brace == was.brace
  {
    var front := Summarize(ps[..|ps| - 1], given);
    assert (front.text + "\n")[|front.text|..] == "\n";
    assert front.words + [] == front.words;
  }

  class OutputBuilder {
    var buffer: string
    var indentLevel: nat
    var atLineStart: bool
    const config: Config
    ghost const given: Given
    ghost var pieces: seq<Piece>
    ghost var state: Summary

    ghost predicate Valid()
      reads this
    {
      && state == Summarize(pieces, given) && buffer == state.text
      && state.depth == indentLevel && given.config == config
    }

    constructor (config: Config, ghost items: seq<Comment>)
      ensures Valid() && this.config == config && given == Given(items, config)
      ensures buffer == "" && indentLevel == 0 && atLineStart && pieces == []
    {
      this.config, given := config, Given(items, config);
      buffer, indentLevel, atLineStart, pieces := "", 0, true, [];
      state := Summarize([], Given(items, config));
    }

    /** Adds a piece. */
    ghost method Add(p: Piece)
      requires state == Summarize(pieces, given)
      modifies this`pieces, this`state
      ensures pieces == old(pieces) + [p] && state == Summarize(pieces, given) == Step(old(state), p, given)
      ensures state.text == old(state.text) + Render(p)
    {
      SummarizeAppend(pieces, p, given);
      pieces := pieces + [p];
      state := Step(state, p, given);
    }

    /** Records a mark. */
    ghost method Record(p: Piece)
      requires Valid() && p.Mark?
      modifies this`pieces, this`state
      ensures Valid() && pieces == old(pieces) + [p] && state == Step(old(state), p, given)
    {
      Add(p);
      assert buffer + "" == buffer;
    }

    method Indent()
      requires Valid()
      modifies this`indentLevel, this`pieces, this`state
      ensures Valid() && indentLevel == old(indentLevel) + 1 && state == Step(old(state), Deeper, given)
    {
      Add(Deeper);
      assert buffer + "" == buffer;
      indentLevel := indentLevel + 1;
    }

    method Dedent()
      requires Valid()
      modifies this`indentLevel, this`pieces, this`state
      ensures Valid() && indentLevel == (if old(indentLevel) > 0 then old(indentLevel) - 1 else 0)
      ensures state == Step(old(state), Shallower, given)
    {
      Add(Shallower);
      assert buffer + "" == buffer;
      if indentLevel > 0 {
        indentLevel := indentLevel - 1;
      }
    }

    /** The indentation that writing `s` puts in front of it. */
    function Lead(s: string): string
      reads this
    {
      if s != "" && atLineStart && s[0] != '\n' then IndentString(config, indentLevel) else ""
    }

    /** Takes all that was written since `before` as the one piece `p`. */
    ghost method Collapse(before: seq<Piece>, was: Summary, p: Piece)
      requires was == Summarize(before, given) && buffer == was.text + Render(p) && p.Note?
      requires was.depth == indentLevel && given.config == config
      modifies this`pieces, this`state
      ensures Valid() && pieces == before + [p] && state == Step(was, p, given)
    {
      SummarizeAppend(before, p, given);
      pieces := before + [p];
      state := Step(was, p, given);
    }

    /** Adds a piece behind the indentation `lead`. */
    ghost method Append(lead: string, p: Piece)
      requires Valid() && (p.Code? || p.Blanks? || p.Opening?)
      modifies this`pieces, this`state
      ensures state == Summarize(pieces, given) == StepBehind(old(state), lead, p, given)
      ensures state.text == buffer + lead + Render(p) && state.depth == old(state.depth)
    {
      if lead == "" {
        assert buffer + lead == buffer;
      } else {
        Add(Blanks(lead));
      }
      Add(p);
    }

    /** Writes `s`, indented if it starts a line; `p` tells program text, braces and blanks apart. */
    method Write(s: string, ghost p: Piece)
      requires Valid() && (p == Code(s) || p == Blanks(s) || (p.Opening? && s == "{"))
      modifies this`buffer, this`atLineStart, this`pieces, this`state
      ensures Valid()
      ensures buffer == old(buffer) + old(Lead(s)) + s
      ensures atLineStart == if s == "" then old(atLineStart) else s[|s| - 1] == '\n'
      ensures s == "" ==> pieces == old(pieces) && state == old(state)
      ensures s != "" ==> state == StepBehind(old(state), old(Lead(s)), p, given)
    {
      if s == "" {
        assert buffer + Lead(s) + s == buffer;
        return;
      }
      Append(Lead(s), p);
      var indent := "";
      if atLineStart && s[0] != '\n' {
        indent := IndentString(config, indentLevel);
      }
      buffer := buffer + indent + s;
      atLineStart := s[|s| - 1] == '\n';
    }

    method WriteNewline()
      requires Valid()
      modifies this`buffer, this`atLineStart, this`pieces, this`state
      ensures Valid() && atLineStart && buffer == old(buffer) + "\n"
      ensures state == Step(old(state), Newline, given)
      ensures !old(state).atStart ==> EndedLine(old(state).inComment)
    {
      ghost var before := pieces;
      Add(Newline);
      assert pieces[..|pieces| - 1] == before;
      buffer := buffer + "\n";
      atLineStart := true;
    }

    /** The output ends with the line end of a line; `inComment` tells whether a `//` comment was open before it. */
    ghost predicate EndedLine(inComment: bool)
      reads this
    {
      && pieces != [] && pieces[|pieces| - 1].Newline? && atLineStart
      && var line := Summarize(pieces[..|pieces| - 1], given);
         line.inComment == inComment && !line.atStart
    }

    /** Takes the last character back. */
    ghost method TakeBack()
      requires Valid() && buffer != ""
      modifies this`pieces, this`state
      ensures pieces == PopNewline(old(pieces)) && state == Summarize(pieces, given)
      ensures state.text == buffer[..|buffer| - 1] && state.depth == indentLevel
    {
      PopNewlinePops(pieces, given);
      PopKeepsDepth(pieces);
      SummaryDepth(pieces, given);
      SummaryDepth(PopNewline(pieces), given);
      pieces := PopNewline(pieces);
      state := Summarize(pieces, given);
    }

    /** Takes a trailing line end back, so that the next text joins the line before. */
    method BackspaceNewline()
      requires Valid()
      modifies this`buffer, this`atLineStart, this`pieces, this`state
      ensures Valid()
      ensures if old(atLineStart) && EndsWith(old(buffer), "\n")
              then buffer == old(buffer)[..|old(buffer)| - 1] && pieces == PopNewline(old(pieces)) && !atLineStart
              else buffer == old(buffer) && pieces == old(pieces) && atLineStart == old(atLineStart)
    {
      if atLineStart && EndsWith(buffer, "\n") {
        TakeBack();
        buffer := buffer[..|buffer| - 1];
        atLineStart := false;
      }
    }

    /** The finished text: trailing line ends reduced to one, or one added. */
    method Finish() returns (text: string)
      ensures Finished(buffer, text)
    {
      text := buffer;
      while EndsWith(text, "\n\n")
        invariant text <= buffer && (text == "" <==> buffer == "")
        invariant forall k :: |text| <= k < |buffer| ==> buffer[k] == '\n'
        invariant text != "" ==> (EndsWith(text, "\n") <==> EndsWith(buffer, "\n"))
        decreases |text|
      {
        assert text[|text| - 1] == text[|text| - 2] == '\n';
        text := text[..|text| - 1];
      }
      if text != "" && !EndsWith(text, "\n") {
        text := text + "\n";
      }
    }
  }
}
