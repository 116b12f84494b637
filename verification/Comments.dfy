/**
 The comments of a source text, in source order, with the cursor the formatter
 consumes them through.
 */
module Comments {
  import opened Options

  /** A comment without its markers. Lines and columns count from 1. */
  datatype Comment = Comment(text: string, isBlock: bool, startLine: nat, endLine: nat, startCol: nat)

  datatype TokenKind = LineComment(text: string) | BlockComment(text: string) | Significant

  datatype Token = Token(kind: TokenKind, startLine: nat, startCol: nat, endLine: nat)

  /** The order in which `a` may stand before `b`. */
  predicate AtOrBefore(a: Comment, b: Comment) {
    a.startLine < b.startLine || (a.startLine == b.startLine && a.startCol <= b.startCol)
  }

  ghost predicate Sorted(cs: seq<Comment>) {
    forall i, j :: 0 <= i < j < |cs| ==> AtOrBefore(cs[i], cs[j])
  }

  function CommentsOf(tokens: seq<Token>): seq<Comment> {
    if tokens == [] then []
    else
      var t := tokens[|tokens| - 1];
      CommentsOf(tokens[..|tokens| - 1]) +
      match t.kind
      case LineComment(text) => [Comment(text, false, t.startLine, t.endLine, t.startCol)]
      case BlockComment(text) => [Comment(text, true, t.startLine, t.endLine, t.startCol)]
      case Significant => []
  }

  /** The tokens that are comments. */
  function CommentTokens(tokens: seq<Token>): seq<Token> {
    if tokens == [] then []
    else (if tokens[0].kind.Significant? then [] else [tokens[0]]) + CommentTokens(tokens[1..])
  }

  /** The token that a comment was. */
  function TokenOf(c: Comment): Token {
    Token(if c.isBlock then BlockComment(c.text) else LineComment(c.text), c.startLine, c.startCol, c.endLine)
  }

  function TokensOf(cs: seq<Comment>): seq<Token> {
    if cs == [] then [] else TokensOf(cs[..|cs| - 1]) + [TokenOf(cs[|cs| - 1])]
  }

  lemma {:induction false} CommentTokensSnoc(tokens: seq<Token>, t: Token)
    ensures CommentTokens(tokens + [t]) == CommentTokens(tokens) + if t.kind.Significant? then [] else [t]
  {
    if tokens == [] {
      assert ([t])[1..] == [] && [] + [t] == [t];
    } else {
      assert (tokens + [t])[0] == tokens[0] && (tokens + [t])[1..] == tokens[1..] + [t];
      CommentTokensSnoc(tokens[1..], t);
    }
  }

  /** The comments are the comment tokens, in their order: kind, text and position of each can be told from them. */
  lemma {:induction false} CommentsTellTokens(tokens: seq<Token>)
    ensures TokensOf(CommentsOf(tokens)) == CommentTokens(tokens)
  {
    if tokens != [] {
      var front, t := tokens[..|tokens| - 1], tokens[|tokens| - 1];
      CommentsTellTokens(front);
      CommentTokensSnoc(front, t);
      assert tokens == front + [t];
      var cs := CommentsOf(tokens);
      if t.kind.Significant? {
        assert cs == CommentsOf(front) + [] == CommentsOf(front);
        assert CommentTokens(front) + [] == CommentTokens(front);
      } else {
        assert cs[..|cs| - 1] == CommentsOf(front) && TokenOf(cs[|cs| - 1]) == t;
      }
    }
  }

  /** Puts `c` after every comment that may stand before it. */
  function Insert(cs: seq<Comment>, c: Comment): seq<Comment> {
    if cs == [] || AtOrBefore(cs[|cs| - 1], c) then cs + [c]
    else Insert(cs[..|cs| - 1], c) + [cs[|cs| - 1]]
  }

  /** The stable sort by starting position. */
  function SortByPosition(cs: seq<Comment>): seq<Comment> {
    if cs == [] then [] else Insert(SortByPosition(cs[..|cs| - 1]), cs[|cs| - 1])
  }

  lemma {:induction false} InsertPermutes(cs: seq<Comment>, c: Comment)
    ensures multiset(Insert(cs, c)) == multiset(cs) + multiset{c}
  {
    if cs != [] && !AtOrBefore(cs[|cs| - 1], c) {
      InsertPermutes(cs[..|cs| - 1], c);
      assert cs == cs[..|cs| - 1] + [cs[|cs| - 1]];
    }
  }

  lemma InsertMembers(cs: seq<Comment>, c: Comment, x: Comment)
    requires x in Insert(cs, c)
    ensures x in cs || x == c
  {
    InsertPermutes(cs, c);
    assert x in multiset(Insert(cs, c));
  }

  lemma {:induction false} InsertSorts(cs: seq<Comment>, c: Comment)
    requires Sorted(cs)
    ensures Sorted(Insert(cs, c))
  {
    if cs != [] && !AtOrBefore(cs[|cs| - 1], c) {
      var front, last := cs[..|cs| - 1], cs[|cs| - 1];
      InsertSorts(front, c);
      forall i | 0 <= i < |Insert(front, c)| ensures AtOrBefore(Insert(front, c)[i], last) {
        InsertMembers(front, c, Insert(front, c)[i]);
      }
    }
  }

  /** Sorting orders the comments and neither loses nor repeats one. */
  lemma {:induction false} SortSorts(cs: seq<Comment>)
    ensures Sorted(SortByPosition(cs))
    ensures multiset(SortByPosition(cs)) == multiset(cs)
  {
    if cs != [] {
      SortSorts(cs[..|cs| - 1]);
      InsertSorts(SortByPosition(cs[..|cs| - 1]), cs[|cs| - 1]);
      InsertPermutes(SortByPosition(cs[..|cs| - 1]), cs[|cs| - 1]);
      assert cs == cs[..|cs| - 1] + [cs[|cs| - 1]];
    }
  }

  function StartingAt(cs: seq<Comment>, line: nat, col: nat): seq<Comment> {
    if cs == [] then []
    else
      var last := cs[|cs| - 1];
      StartingAt(cs[..|cs| - 1], line, col) + if last.startLine == line && last.startCol == col then [last] else []
  }

  lemma {:induction false} InsertIsStable(cs: seq<Comment>, c: Comment, line: nat, col: nat)
    ensures StartingAt(Insert(cs, c), line, col) == StartingAt(cs + [c], line, col)
  {
    if cs != [] && !AtOrBefore(cs[|cs| - 1], c) {
      InsertIsStable(cs[..|cs| - 1], c, line, col);
      assert (cs + [c])[..|cs|] == cs && (cs[..|cs| - 1] + [c])[..|cs| - 1] == cs[..|cs| - 1];
    }
  }

  /** Comments that start at one position keep their order. */
  lemma {:induction false} SortIsStable(cs: seq<Comment>, line: nat, col: nat)
    ensures StartingAt(SortByPosition(cs), line, col) == StartingAt(cs, line, col)
  {
    if cs != [] {
      var sorted, c := SortByPosition(cs[..|cs| - 1]), cs[|cs| - 1];
      SortIsStable(cs[..|cs| - 1], line, col);
      InsertIsStable(sorted, c, line, col);
      assert (sorted + [c])[..|sorted|] == sorted;
    }
  }

  /** Comments that a lexer delivers in order stay as they are. */
  lemma {:induction false} SortKeepsSorted(cs: seq<Comment>)
    requires Sorted(cs)
    ensures SortByPosition(cs) == cs
  {
    if cs != [] {
      SortKeepsSorted(cs[..|cs| - 1]);
    }
  }

  /** The furthest line that one of the first `n` comments starts on. */
  function Furthest(cs: seq<Comment>, n: nat): nat
    requires n <= |cs|
  {
    if n == 0 then 0
    else
      var before := Furthest(cs, n - 1);
      if before < cs[n - 1].startLine then cs[n - 1].startLine else before
  }

  lemma {:induction false} FurthestBounds(cs: seq<Comment>, n: nat)
    requires n <= |cs|
    ensures forall k :: 0 <= k < n ==> cs[k].startLine <= Furthest(cs, n)
  {
    if n > 0 {
      FurthestBounds(cs, n - 1);
    }
  }

  /** Some comment starts within the lines, looking no further than the first that starts after them. */
  predicate AnyWithin(cs: seq<Comment>, startLine: nat, endLine: nat) {
    cs != [] && cs[0].startLine <= endLine &&
    (cs[0].startLine >= startLine || AnyWithin(cs[1..], startLine, endLine))
  }

  /** On sorted comments the early stop misses nothing. */
  lemma {:induction false} AnyWithinIsExact(cs: seq<Comment>, startLine: nat, endLine: nat)
    requires Sorted(cs)
    ensures AnyWithin(cs, startLine, endLine) <==> exists k :: 0 <= k < |cs| && startLine <= cs[k].startLine <= endLine
  {
    if cs != [] {
      AnyWithinIsExact(cs[1..], startLine, endLine);
      if k :| 0 <= k < |cs| && startLine <= cs[k].startLine <= endLine {
        assert k > 0 ==> AtOrBefore(cs[0], cs[k]) && cs[k] == cs[1..][k - 1];
      }
    }
  }

  class CommentStream {
    const items: seq<Comment>
    var idx: nat

    ghost predicate Valid()
      reads this
    {
      idx <= |items| && Sorted(items)
    }

    constructor FromTokens(tokens: seq<Token>)
      ensures Valid() && idx == 0 && items == SortByPosition(CommentsOf(tokens))
      ensures multiset(items) == multiset(CommentsOf(tokens))
      ensures Sorted(CommentsOf(tokens)) ==> items == CommentsOf(tokens)
    {
      SortSorts(CommentsOf(tokens));
      if Sorted(CommentsOf(tokens)) {
        SortKeepsSorted(CommentsOf(tokens));
      }
      items := SortByPosition(CommentsOf(tokens));
      idx := 0;
    }

    /** Takes the next comment if it starts before `line`. */
    method NextBeforeLine(line: nat) returns (c: Option<Comment>)
      requires Valid()
      modifies this
      ensures Valid()
      ensures c == if old(idx) < |items| && items[old(idx)].startLine < line then Some(items[old(idx)]) else None
      ensures idx == if c.Some? then old(idx) + 1 else old(idx)
      ensures c.None? ==> forall k :: idx <= k < |items| ==> line <= items[k].startLine
    {
      if idx < |items| && items[idx].startLine < line {
        c := Some(items[idx]);
        idx := idx + 1;
      } else {
        assert idx < |items| ==> forall k :: idx < k < |items| ==> AtOrBefore(items[idx], items[k]);
        c := None;
      }
    }

    /** Takes the next comment if it starts on `line`. */
    method NextOnLine(line: nat) returns (c: Option<Comment>)
      requires Valid()
      modifies this
      ensures Valid()
      ensures c == if old(idx) < |items| && items[old(idx)].startLine == line then Some(items[old(idx)]) else None
      ensures idx == if c.Some? then old(idx) + 1 else old(idx)
    {
      if idx < |items| && items[idx].startLine == line {
        c := Some(items[idx]);
        idx := idx + 1;
      } else {
        c := None;
      }
    }

    /** An unconsumed comment starts within the lines. */
    predicate HasWithin(startLine: nat, endLine: nat)
      requires idx <= |items|
      reads this
    {
      AnyWithin(items[idx..], startLine, endLine)
    }

    method DrainRest() returns (rest: seq<Comment>)
      requires Valid()
      modifies this
      ensures Valid() && idx == |items| && rest == items[old(idx)..]
    {
      rest := items[idx..];
      idx := |items|;
    }
  }
}
