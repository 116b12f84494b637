/**
 Operator expressions: the printer that adds parentheses by precedence, and the
 precedence reader it is judged against.
 */
module Expressions {
  import opened Options

  /** The operators that are written with a token of their own. */
  datatype BinaryOp =
    | Add | Sub | Mul | Div | Mod | Pow
    | Eq | Neq | Lt | Gt | Le | Ge
    | And | Or
    | Pipe | Comma | Range

  datatype UnaryOp = Neg | Not | Pos

  datatype Expr =
    | Atom(text: string)
    | Group(inner: Expr)
    | Unary(sign: UnaryOp, operand: Expr)
    | Binary(op: BinaryOp, left: Expr, right: Expr)

  /** What the lexer delivers; `Fused` is what it makes of two tokens that touch and share an opening. */
  datatype Token = Word(text: string) | Op(op: BinaryOp) | Bang | Open | Close | Fused(first: Token, second: Token)

  // --------------------------------------------------------------------------
  // The printer
  // --------------------------------------------------------------------------

  /** The formatter's table: higher binds tighter. */
  function OperatorPrecedence(op: BinaryOp): nat {
    match op
    case Or => 1
    case And => 2
    case Eq | Neq => 3
    case Lt | Gt | Le | Ge => 4
    case Add | Sub => 5
    case Mul | Div | Mod => 6
    case Pow => 7
    case Pipe | Comma => 0
    case Range => 8
  }

  predicate NeedsParensForChild(child: Expr, parentOp: BinaryOp, isLeft: bool) {
    child.Binary? &&
    var childPrec := OperatorPrecedence(child.op);
    var parentPrec := OperatorPrecedence(parentOp);
    if childPrec < parentPrec then true
    else if childPrec == parentPrec && !isLeft && parentOp == Pow then false
    else childPrec == parentPrec && !isLeft
  }

  function UnaryToken(sign: UnaryOp): Token {
    match sign
    case Neg => Op(Sub)
    case Pos => Op(Add)
    case Not => Bang
  }

  /** The tokens of a tree whose every parenthesis is a `Group`. */
  function Tokens(e: Expr): seq<Token> {
    match e
    case Atom(t) => [Word(t)]
    case Group(inner) => [Open] + Tokens(inner) + [Close]
    case Unary(sign, operand) => [UnaryToken(sign)] + Tokens(operand)
    case Binary(op, l, r) => Tokens(l) + [Op(op)] + Tokens(r)
  }

  function GroupIf(needed: bool, e: Expr): Expr {
    if needed then Group(e) else e
  }

  /** The tree with a `Group` wherever the printer writes parentheses. */
  function Explicit(e: Expr): Expr {
    match e
    case Atom(_) => e
    case Group(inner) => Group(Explicit(inner))
    case Unary(sign, operand) => Unary(sign, GroupIf(operand.Binary?, Explicit(operand)))
    case Binary(op, l, r) =>
      Binary(op,
             GroupIf(NeedsParensForChild(l, op, true), Explicit(l)),
             GroupIf(NeedsParensForChild(r, op, false), Explicit(r)))
  }

  /** The tokens that the formatter means to write for an expression. */
  function Printed(e: Expr): seq<Token> {
    Tokens(Explicit(e))
  }

  /** A piece of printed text: a token, or a gap that keeps its neighbours apart. */
  datatype Item = Tok(token: Token) | Gap

  /** A binary operator with the blanks around it; `..` has none. */
  function OpItems(op: BinaryOp): seq<Item> {
    if op == Range then [Tok(Op(op))] else [Gap, Tok(Op(op)), Gap]
  }

  /** The text of a tree whose every parenthesis is a `Group`. */
  function Spelled(e: Expr): seq<Item> {
    match e
    case Atom(t) => [Tok(Word(t))]
    case Group(inner) => [Tok(Open)] + (Spelled(inner) + [Tok(Close)])
    case Unary(sign, operand) => [Tok(UnaryToken(sign))] + Spelled(operand)
    case Binary(op, l, r) => Spelled(l) + (OpItems(op) + Spelled(r))
  }

  /** The expression part of the format visitor, writing text in order. */
  class ExprFormatter {
    var output: seq<Item>

    constructor ()
      ensures output == []
    {
      output := [];
    }

    method Write(t: Token)
      modifies this
      ensures output == old(output) + [Tok(t)]
    {
      output := output + [Tok(t)];
    }

    method Space()
      modifies this
      ensures output == old(output) + [Gap]
    {
      output := output + [Gap];
    }

    method FormatExpr(e: Expr)
      modifies this
      ensures output == old(output) + Spelled(Explicit(e))
      decreases e, 1
    {
      match e
      case Atom(text) =>
        Write(Word(text));
      case Group(inner) =>
        Write(Open);
        FormatExpr(inner);
        Write(Close);
      case Unary(sign, operand) =>
        Write(UnaryToken(sign));
        FormatChild(operand, operand.Binary?);
      case Binary(_, _, _) =>
        FormatBinary(e);
    }

    method FormatBinary(e: Expr)
      requires e.Binary?
      modifies this
      ensures output == old(output) + Spelled(Explicit(e))
      decreases e, 0
    {
      FormatChild(e.left, NeedsParensForChild(e.left, e.op, true));
      FormatOperator(e.op);
      FormatChild(e.right, NeedsParensForChild(e.right, e.op, false));
    }

    method FormatOperator(op: BinaryOp)
      modifies this
      ensures output == old(output) + OpItems(op)
    {
      if op == Range {
        Write(Op(op));
      } else {
        Space();
        Write(Op(op));
        Space();
      }
    }

    method FormatChild(child: Expr, needsParens: bool)
      modifies this
      ensures output == old(output) + Spelled(GroupIf(needsParens, Explicit(child)))
      decreases child, 2
    {
      if needsParens {
        Write(Open);
      }
      FormatExpr(child);
      if needsParens {
        Write(Close);
      }
    }
  }

  // --------------------------------------------------------------------------
  // The lexer: signs that touch what follows them
  // --------------------------------------------------------------------------

  function OpText(op: BinaryOp): string {
    match op
    case Add => "+"
    case Sub => "-"
    case Mul => "*"
    case Div => "/"
    case Mod => "%"
    case Pow => "^"
    case Eq => "=="
    case Neq => "<>"
    case Lt => "<"
    case Gt => ">"
    case Le => "<="
    case Ge => ">="
    case And => "&&"
    case Or => "||"
    case Pipe => "|>"
    case Comma => ","
    case Range => ".."
  }

  function TokenText(t: Token): string {
    match t
    case Word(text) => text
    case Op(op) => OpText(op)
    case Bang => "!"
    case Open => "("
    case Close => ")"
    case Fused(first, second) => TokenText(first) + TokenText(second)
  }

  /** The characters that the lexer takes together with the single character of a sign before them. */
  function TakenAlong(t: Token): string {
    match t
    case Op(Sub) => "->="
    case Op(Add) => "+="
    case Bang => "?="
    case _ => ""
  }

  predicate Fuses(t: Token, u: Token) {
    TokenText(u) != "" && TokenText(u)[0] in TakenAlong(t)
  }

  /** The operator, sign or parenthesis that the lexer makes of the characters at the start of `s`, if it is one. */
  function ReadSymbol(s: string): Option<Token>
    requires s != ""
  {
    var next := if |s| > 1 then s[1] else ' ';
    match s[0]
    case '(' => Some(Open)
    case ')' => Some(Close)
    case '!' => if next in "?=" then None else Some(Bang)
    case '+' => if next in "+=" then None else Some(Op(Add))
    case '-' => if next in ">-=" then None else Some(Op(Sub))
    case '*' => if next == '=' then None else Some(Op(Mul))
    case '/' => if next in "/*=" then None else Some(Op(Div))
    case '%' => if next == '=' then None else Some(Op(Mod))
    case '^' => if next == '=' then None else Some(Op(Pow))
    case '=' => if next == '=' then Some(Op(Eq)) else None
    case '>' => if next == '=' then Some(Op(Ge)) else if next in "><" then None else Some(Op(Gt))
    case '<' =>
      if next == '=' then Some(Op(Le)) else if next == '>' then Some(Op(Neq))
      else if next in "<~#/\\" then None else Some(Op(Lt))
    case '&' => if next == '&' then Some(Op(And)) else None
    case '|' => if next == '|' then Some(Op(Or)) else if next == '>' then Some(Op(Pipe)) else None
    case ',' => Some(Op(Comma))
    case '.' => if next == '.' then Some(Op(Range)) else None
    case _ => None
  }

  /** Each operator is read back from its text where it is printed: before a blank, or without one if it is `..`. */
  lemma OperatorReadsBack(op: BinaryOp, rest: string)
    requires op == Range || (rest != "" && rest[0] == ' ')
    ensures ReadSymbol(OpText(op) + rest) == Some(Op(op))
  {
    assert (OpText(op) + rest)[0] == OpText(op)[0];
    assert |OpText(op)| > 1 ==> (OpText(op) + rest)[1] == OpText(op)[1];
    assert |OpText(op)| == 1 ==> (OpText(op) + rest)[1] == rest[0];
  }

  /** A sign is fused with what follows it exactly when the lexer does not read the sign there. */
  lemma FusedIffNotRead(sign: UnaryOp, u: Token)
    ensures Fuses(UnaryToken(sign), u)
            <==> ReadSymbol(TokenText(UnaryToken(sign)) + TokenText(u)) != Some(UnaryToken(sign))
  {
    var text := TokenText(UnaryToken(sign)) + TokenText(u);
    assert TokenText(u) != "" ==> text[1] == TokenText(u)[0];
  }

  /** The tokens of a text: gaps separate, and a sign takes along what it fuses with. */
  function Lex(items: seq<Item>): seq<Token> {
    if items == [] then []
    else if items[0] == Gap then Lex(items[1..])
    else if |items| > 1 && items[1].Tok? && Fuses(items[0].token, items[1].token) then
      [Fused(items[0].token, items[1].token)] + Lex(items[2..])
    else [items[0].token] + Lex(items[1..])
  }

  /** What the lexer reads of the formatted expression. */
  function Formatted(e: Expr): seq<Token> {
    Lex(Spelled(Explicit(e)))
  }

  /** The operand is written directly behind the sign and fuses with it. */
  predicate SignTouches(sign: UnaryOp, operand: Expr) {
    match operand
    case Atom(t) => Fuses(UnaryToken(sign), Word(t))
    case Unary(inner, _) => Fuses(UnaryToken(sign), UnaryToken(inner))
    case _ => false
  }

  /** Somewhere a sign touches an operand that it fuses with: the same sign again, or `!` before a `?`. */
  predicate Touches(e: Expr) {
    match e
    case Atom(_) => false
    case Group(inner) => Touches(inner)
    case Unary(sign, operand) => SignTouches(sign, operand) || Touches(operand)
    case Binary(_, l, r) => Touches(l) || Touches(r)
  }

  /** No sign applies to a bare operator expression, as in everything the printer writes. */
  predicate SignsOperands(e: Expr) {
    match e
    case Atom(_) => true
    case Group(inner) => SignsOperands(inner)
    case Unary(_, operand) => !operand.Binary? && SignsOperands(operand)
    case Binary(_, l, r) => SignsOperands(l) && SignsOperands(r)
  }

  lemma {:induction false} ExplicitSignsOperands(e: Expr)
    ensures SignsOperands(Explicit(e)) && (Touches(Explicit(e)) <==> Touches(e))
  {
    match e
    case Atom(_) =>
    case Group(inner) => ExplicitSignsOperands(inner);
    case Unary(_, operand) => ExplicitSignsOperands(operand);
    case Binary(_, l, r) => ExplicitSignsOperands(l); ExplicitSignsOperands(r);
  }

  lemma LexToken(t: Token, rest: seq<Item>)
    requires rest == [] || rest[0].Gap? || !Fuses(t, rest[0].token)
    ensures Lex([Tok(t)] + rest) == [t] + Lex(rest)
  {
    assert ([Tok(t)] + rest)[1..] == rest;
  }

  lemma LexFused(t: Token, u: Token, rest: seq<Item>)
    requires Fuses(t, u)
    ensures Lex([Tok(t), Tok(u)] + rest) == [Fused(t, u)] + Lex(rest)
  {
    assert ([Tok(t), Tok(u)] + rest)[2..] == rest;
  }

  lemma LexGap(rest: seq<Item>)
    ensures Lex([Gap] + rest) == Lex(rest)
  {
    assert ([Gap] + rest)[1..] == rest;
  }

  lemma LexOperator(op: BinaryOp, rest: seq<Item>)
    ensures Lex(OpItems(op) + rest) == [Op(op)] + Lex(rest)
  {
    if op == Range {
      LexToken(Op(op), rest);
    } else {
      LexGap([Tok(Op(op))] + ([Gap] + rest));
      LexToken(Op(op), [Gap] + rest);
      LexGap(rest);
      assert OpItems(op) + rest == [Gap] + ([Tok(Op(op))] + ([Gap] + rest));
    }
  }

  /** The token that a tree's text starts with. */
  function FirstToken(e: Expr): Token {
    match e
    case Atom(t) => Word(t)
    case Group(_) => Open
    case Unary(sign, _) => UnaryToken(sign)
    case Binary(_, l, _) => FirstToken(l)
  }

  lemma {:induction false} SpelledFirst(e: Expr)
    ensures Spelled(e) != [] && Spelled(e)[0] == Tok(FirstToken(e))
  {
    if e.Binary? {
      SpelledFirst(e.left);
    }
  }

  lemma SignTouchesFirst(sign: UnaryOp, operand: Expr)
    requires !operand.Binary?
    ensures Fuses(UnaryToken(sign), FirstToken(operand)) <==> SignTouches(sign, operand)
  {
  }

  lemma Rejoin(a: seq<Item>, b: seq<Item>, c: seq<Item>)
    ensures (a + b) + c == a + (b + c)
  {
  }

  lemma RejoinTokens(a: seq<Token>, b: seq<Token>, c: seq<Token>)
    ensures (a + b) + c == a + (b + c)
  {
  }

  /** The lexer reads the tokens that were meant, and goes on behind them. */
  predicate ReadAsMeant(e: Expr, rest: seq<Item>) {
    Lex(Spelled(e) + rest) == Tokens(e) + Lex(rest)
  }

  /** Where no sign touches, the lexer reads the tokens that were meant. */
  lemma {:induction false} LexSpelled(e: Expr, rest: seq<Item>)
    requires SignsOperands(e) && !Touches(e)
    ensures ReadAsMeant(e, rest)
    decreases e
  {
    match e
    case Atom(t) =>
      LexToken(Word(t), rest);
    case Group(inner) =>
      LexSpelled(inner, [Tok(Close)] + rest);
      LexGroup(inner, rest);
    case Unary(sign, operand) =>
      LexSpelled(operand, rest);
      LexTouchingSign(sign, operand, rest);
      RejoinTokens([UnaryToken(sign)], Tokens(operand), Lex(rest));
    case Binary(op, l, r) =>
      LexSpelled(r, rest);
      LexSpelled(l, OpItems(op) + (Spelled(r) + rest));
      LexBinary(op, l, r, rest);
  }

  lemma LexGroup(inner: Expr, rest: seq<Item>)
    requires ReadAsMeant(inner, [Tok(Close)] + rest)
    ensures ReadAsMeant(Group(inner), rest)
  {
    var after := [Tok(Close)] + rest;
    SpelledGroup(inner, rest);
    LexToken(Close, rest);
    LexToken(Open, Spelled(inner) + after);
    RejoinTokens([Open] + Tokens(inner), [Close], Lex(rest));
    RejoinTokens([Open], Tokens(inner), [Close] + Lex(rest));
  }

  lemma SpelledGroup(inner: Expr, rest: seq<Item>)
    ensures Spelled(Group(inner)) + rest == [Tok(Open)] + (Spelled(inner) + ([Tok(Close)] + rest))
  {
    Rejoin([Tok(Open)], Spelled(inner) + [Tok(Close)], rest);
    Rejoin(Spelled(inner), [Tok(Close)], rest);
  }

  lemma LexBinary(op: BinaryOp, l: Expr, r: Expr, rest: seq<Item>)
    requires ReadAsMeant(r, rest) && ReadAsMeant(l, OpItems(op) + (Spelled(r) + rest))
    ensures ReadAsMeant(Binary(op, l, r), rest)
  {
    SpelledBinary(op, l, r, rest);
    LexOperator(op, Spelled(r) + rest);
    RejoinTokens(Tokens(l) + [Op(op)], Tokens(r), Lex(rest));
    RejoinTokens(Tokens(l), [Op(op)], Tokens(r) + Lex(rest));
  }

  lemma SpelledBinary(op: BinaryOp, l: Expr, r: Expr, rest: seq<Item>)
    ensures Spelled(Binary(op, l, r)) + rest == Spelled(l) + (OpItems(op) + (Spelled(r) + rest))
  {
    Rejoin(Spelled(l), OpItems(op) + Spelled(r), rest);
    Rejoin(OpItems(op), Spelled(r), rest);
  }

  predicate HasFused(ts: seq<Token>) {
    exists i :: 0 <= i < |ts| && ts[i].Fused?
  }

  lemma HasFusedBehind(a: seq<Token>, b: seq<Token>)
    requires HasFused(b)
    ensures HasFused(a + b)
  {
    var i :| 0 <= i < |b| && b[i].Fused?;
    assert (a + b)[|a| + i].Fused?;
  }

  /** Where a sign touches, the lexer reads a token that nobody meant. */
  lemma {:induction false} LexTouching(e: Expr, rest: seq<Item>)
    requires SignsOperands(e) && Touches(e)
    ensures HasFused(Lex(Spelled(e) + rest))
    decreases e
  {
    match e
    case Group(inner) =>
      var after := [Tok(Close)] + rest;
      SpelledGroup(inner, rest);
      LexTouching(inner, after);
      LexToken(Open, Spelled(inner) + after);
      HasFusedBehind([Open], Lex(Spelled(inner) + after));
    case Unary(sign, operand) =>
      LexTouchingSign(sign, operand, rest);
      if !SignTouches(sign, operand) {
        LexTouching(operand, rest);
        HasFusedBehind([UnaryToken(sign)], Lex(Spelled(operand) + rest));
      }
    case Binary(op, l, r) =>
      var after := OpItems(op) + (Spelled(r) + rest);
      SpelledBinary(op, l, r, rest);
      if Touches(l) {
        LexTouching(l, after);
      } else {
        LexTouching(r, rest);
        LexSpelled(l, after);
        LexOperator(op, Spelled(r) + rest);
        HasFusedBehind([Op(op)], Lex(Spelled(r) + rest));
        HasFusedBehind(Tokens(l), Lex(after));
      }
  }

  lemma LexTouchingSign(sign: UnaryOp, operand: Expr, rest: seq<Item>)
    requires !operand.Binary?
    ensures var ts := Lex(Spelled(Unary(sign, operand)) + rest);
            if SignTouches(sign, operand) then HasFused(ts)
            else ts == [UnaryToken(sign)] + Lex(Spelled(operand) + rest)
  {
    var t, items := UnaryToken(sign), Spelled(operand) + rest;
    SpelledFirst(operand);
    SignTouchesFirst(sign, operand);
    Rejoin([Tok(t)], Spelled(operand), rest);
    if SignTouches(sign, operand) {
      assert [Tok(t)] + items == [Tok(t), items[0]] + items[1..];
      LexFused(t, items[0].token, items[1..]);
      assert ([Fused(t, items[0].token)] + Lex(items[1..]))[0].Fused?;
    } else {
      LexToken(t, items);
    }
  }

  lemma {:induction false} TokensNotFused(e: Expr)
    ensures !HasFused(Tokens(e))
  {
    match e
    case Atom(_) =>
    case Group(inner) => TokensNotFused(inner);
    case Unary(_, operand) => TokensNotFused(operand);
    case Binary(_, l, r) => TokensNotFused(l); TokensNotFused(r);
  }

  /** The lexer reads what was meant exactly when no sign touches what it fuses with. */
  lemma FormattedIffApart(e: Expr)
    ensures if Touches(e) then HasFused(Formatted(e)) else Formatted(e) == Printed(e)
  {
    var x := Explicit(e);
    ExplicitSignsOperands(e);
    assert Spelled(x) + [] == Spelled(x) && Tokens(x) + [] == Tokens(x);
    if Touches(e) {
      LexTouching(x, []);
    } else {
      LexSpelled(x, []);
    }
  }

  // --------------------------------------------------------------------------
  // The reader: precedence climbing over a table of levels
  // --------------------------------------------------------------------------

  /**
   How an operator is read: its binding level, and the least levels at which an
   operator may stand bare as its left and as its right operand.
   */
  datatype Infix = Infix(level: nat, left: nat, right: nat)

  function LeftAssociative(level: nat): Infix {
    Infix(level, level, level + 1)
  }

  /** The operators of a language; one that is not infix has no entry. */
  type Table = BinaryOp -> Option<Infix>

  predicate AtLeast(levels: Table, op: BinaryOp, min: nat) {
    levels(op).Some? && min <= levels(op).value.level
  }

  predicate FitsLeft(levels: Table, child: Expr, op: BinaryOp) {
    levels(op).Some? && (child.Binary? ==> AtLeast(levels, child.op, levels(op).value.left))
  }

  predicate FitsRight(levels: Table, child: Expr, op: BinaryOp) {
    levels(op).Some? && (child.Binary? ==> AtLeast(levels, child.op, levels(op).value.right))
  }

  function ReadExpr(levels: Table, ts: seq<Token>, min: nat): (r: Option<(Expr, seq<Token>)>)
    ensures r.Some? ==> |r.value.1| < |ts|
    decreases |ts|, 2
  {
    match ReadOperand(levels, ts)
    case None => None
    case Some((e, rest)) => ReadRest(levels, e, rest, min)
  }

  /** A word, a parenthesised expression, or a sign applied to an operand. */
  function ReadOperand(levels: Table, ts: seq<Token>): (r: Option<(Expr, seq<Token>)>)
    ensures r.Some? ==> |r.value.1| < |ts|
    decreases |ts|, 1
  {
    if ts == [] then None
    else match ts[0]
      case Word(t) => Some((Atom(t), ts[1..]))
      case Open => CloseGroup(ReadExpr(levels, ts[1..], 0))
      case Bang => Signed(Not, ReadOperand(levels, ts[1..]))
      case Op(Sub) => Signed(Neg, ReadOperand(levels, ts[1..]))
      case Op(Add) => Signed(Pos, ReadOperand(levels, ts[1..]))
      case _ => None
  }

  function CloseGroup(r: Option<(Expr, seq<Token>)>): Option<(Expr, seq<Token>)> {
    if r.Some? && r.value.1 != [] && r.value.1[0] == Close
    then Some((Group(r.value.0), r.value.1[1..])) else None
  }

  function Signed(sign: UnaryOp, r: Option<(Expr, seq<Token>)>): Option<(Expr, seq<Token>)> {
    if r.Some? then Some((Unary(sign, r.value.0), r.value.1)) else None
  }

  /** Takes operators of at least level `min` that `lhs` may stand left of, folding each into `lhs`. */
  function ReadRest(levels: Table, lhs: Expr, ts: seq<Token>, min: nat): (r: Option<(Expr, seq<Token>)>)
    ensures r.Some? ==> |r.value.1| <= |ts|
    decreases |ts|, 0
  {
    if ts != [] && ts[0].Op? && AtLeast(levels, ts[0].op, min) && FitsLeft(levels, lhs, ts[0].op) then
      match ReadExpr(levels, ts[1..], levels(ts[0].op).value.right)
      case None => None
      case Some((rhs, rest)) => ReadRest(levels, Binary(ts[0].op, lhs, rhs), rest, min)
    else
      Some((lhs, ts))
  }

  /** The expression that all of `ts` spells, if it spells one. */
  function Read(levels: Table, ts: seq<Token>): Option<Expr> {
    match ReadExpr(levels, ts, 0)
    case None => None
    case Some((e, rest)) => if rest == [] then Some(e) else None
  }

  // --------------------------------------------------------------------------
  // The reader and the canonical trees are inverse to one another
  // --------------------------------------------------------------------------

  /** The trees in which no bare operand of an operator binds looser than its place allows. */
  predicate Canonical(levels: Table, e: Expr) {
    match e
    case Atom(_) => true
    case Group(inner) => Canonical(levels, inner)
    case Unary(_, operand) => !operand.Binary? && Canonical(levels, operand)
    case Binary(op, l, r) =>
      FitsLeft(levels, l, op) && FitsRight(levels, r, op) && Canonical(levels, l) && Canonical(levels, r)
  }

  /** The next operator, if `ts` starts with one, binds looser than `bound`. */
  predicate StopsBelow(levels: Table, ts: seq<Token>, bound: nat) {
    ts != [] && ts[0].Op? ==> !AtLeast(levels, ts[0].op, bound)
  }

  /** Operands bind no looser than their operator, and a left operand ends where its operator stands. */
  ghost predicate Unambiguous(levels: Table) {
    forall op, c :: levels(op).Some? && levels(c).Some? ==>
      && levels(op).value.level <= levels(op).value.left && levels(op).value.level <= levels(op).value.right
      && (levels(op).value.left <= levels(c).value.level ==> levels(op).value.level < levels(c).value.right)
  }

  lemma {:induction false} ReadsOperand(levels: Table, e: Expr, rest: seq<Token>)
    requires Unambiguous(levels) && Canonical(levels, e) && !e.Binary?
    ensures ReadOperand(levels, Tokens(e) + rest) == Some((e, rest))
    decreases e, 0
  {
    var ts := Tokens(e) + rest;
    match e
    case Atom(_) =>
      assert ts[1..] == rest;
    case Group(inner) =>
      assert ts[1..] == Tokens(inner) + ([Close] + rest);
      ReadsCanonical(levels, inner, [Close] + rest, 0);
    case Unary(_, operand) =>
      assert ts[1..] == Tokens(operand) + rest;
      ReadsOperand(levels, operand, rest);
  }

  /** Completeness: reading starts by recovering a canonical tree from its tokens. */
  lemma {:induction false} ReadsCanonical(levels: Table, e: Expr, rest: seq<Token>, min: nat)
    requires Unambiguous(levels) && Canonical(levels, e)
    requires e.Binary? ==> AtLeast(levels, e.op, min) && StopsBelow(levels, rest, levels(e.op).value.right)
    ensures ReadExpr(levels, Tokens(e) + rest, min) == ReadRest(levels, e, rest, min)
    decreases e, 1
  {
    if e.Binary? {
      var tail := [Op(e.op)] + (Tokens(e.right) + rest);
      assert Tokens(e) + rest == Tokens(e.left) + tail;
      ReadsCanonical(levels, e.left, tail, min);
      assert tail[1..] == Tokens(e.right) + rest;
      ReadsCanonical(levels, e.right, rest, levels(e.op).value.right);
    } else {
      ReadsOperand(levels, e, rest);
    }
  }

  /** Soundness: what is read is canonical and spells exactly what was consumed. */
  lemma {:induction false} ReadExprSound(levels: Table, ts: seq<Token>, min: nat)
    ensures var r := ReadExpr(levels, ts, min);
            r.Some? ==> && Tokens(r.value.0) + r.value.1 == ts
                        && Canonical(levels, r.value.0)
                        && (r.value.0.Binary? ==> AtLeast(levels, r.value.0.op, min))
    decreases |ts|, 2
  {
    ReadOperandSound(levels, ts);
    var r := ReadOperand(levels, ts);
    if r.Some? {
      ReadRestSound(levels, r.value.0, r.value.1, min);
    }
  }

  lemma {:induction false} ReadOperandSound(levels: Table, ts: seq<Token>)
    ensures var r := ReadOperand(levels, ts);
            r.Some? ==> && Tokens(r.value.0) + r.value.1 == ts
                        && Canonical(levels, r.value.0)
                        && !r.value.0.Binary?
    decreases |ts|, 1
  {
    if ts != [] {
      assert [ts[0]] + ts[1..] == ts;
      if ts[0] == Open {
        ReadExprSound(levels, ts[1..], 0);
      } else {
        ReadOperandSound(levels, ts[1..]);
      }
    }
  }

  lemma Fold(lhs: Expr, op: BinaryOp, rhs: Expr, rest: seq<Token>)
    ensures Tokens(Binary(op, lhs, rhs)) + rest == Tokens(lhs) + ([Op(op)] + (Tokens(rhs) + rest))
  {
  }

  lemma {:induction false} ReadRestSound(levels: Table, lhs: Expr, ts: seq<Token>, min: nat)
    requires Canonical(levels, lhs) && (lhs.Binary? ==> AtLeast(levels, lhs.op, min))
    ensures var r := ReadRest(levels, lhs, ts, min);
            r.Some? ==> && Tokens(r.value.0) + r.value.1 == Tokens(lhs) + ts
                        && Canonical(levels, r.value.0)
                        && (r.value.0.Binary? ==> AtLeast(levels, r.value.0.op, min))
    decreases |ts|, 0
  {
    if ts != [] && ts[0].Op? && AtLeast(levels, ts[0].op, min) && FitsLeft(levels, lhs, ts[0].op) {
      var op := ts[0].op;
      ReadExprSound(levels, ts[1..], levels(op).value.right);
      var r := ReadExpr(levels, ts[1..], levels(op).value.right);
      if r.Some? {
        var rhs, rest := r.value.0, r.value.1;
        ReadRestSound(levels, Binary(op, lhs, rhs), rest, min);
        Fold(lhs, op, rhs, rest);
        assert [ts[0]] + ts[1..] == ts;
      }
    }
  }

  /** Reading and spelling are inverse: canonical trees and readable token lists correspond. */
  lemma ReadIffCanonical(levels: Table, ts: seq<Token>, e: Expr)
    requires Unambiguous(levels)
    ensures Read(levels, ts) == Some(e) <==> Canonical(levels, e) && Tokens(e) == ts
  {
    if Canonical(levels, e) && Tokens(e) == ts {
      assert Tokens(e) + [] == ts;
      ReadsCanonical(levels, e, [], 0);
    }
    ReadExprSound(levels, ts, 0);
    if Read(levels, ts) == Some(e) {
      assert Tokens(e) + [] == Tokens(e);
    }
  }

  // --------------------------------------------------------------------------
  // Where parentheses stand is determined by the tokens and the shape
  // --------------------------------------------------------------------------

  /** The tree without its parentheses. */
  function Strip(e: Expr): Expr {
    match e
    case Atom(_) => e
    case Group(inner) => Strip(inner)
    case Unary(sign, operand) => Unary(sign, Strip(operand))
    case Binary(op, l, r) => Binary(op, Strip(l), Strip(r))
  }

  lemma {:induction false} StripExplicit(e: Expr)
    ensures Strip(Explicit(e)) == Strip(e)
  {
    match e
    case Atom(_) =>
    case Group(inner) => StripExplicit(inner);
    case Unary(_, operand) => StripExplicit(operand);
    case Binary(_, l, r) => StripExplicit(l); StripExplicit(r);
  }

  function Depth(ts: seq<Token>): int {
    if ts == [] then 0
    else Depth(ts[..|ts| - 1]) + (if ts[|ts| - 1] == Open then 1 else if ts[|ts| - 1] == Close then -1 else 0)
  }

  function Words(ts: seq<Token>): nat {
    if ts == [] then 0
    else Words(ts[..|ts| - 1]) + (if ts[|ts| - 1].Word? then 1 else 0)
  }

  lemma {:induction false} CountsConcat(a: seq<Token>, b: seq<Token>)
    ensures Depth(a + b) == Depth(a) + Depth(b)
    ensures Words(a + b) == Words(a) + Words(b)
    decreases |b|
  {
    if b == [] {
      assert a + b == a;
    } else {
      CountsConcat(a, b[..|b| - 1]);
      assert (a + b)[..|a + b| - 1] == a + b[..|b| - 1];
    }
  }

  function WordCount(e: Expr): nat {
    match e
    case Atom(_) => 1
    case Group(inner) => WordCount(inner)
    case Unary(_, operand) => WordCount(operand)
    case Binary(_, l, r) => WordCount(l) + WordCount(r)
  }

  lemma {:induction false} TokenCounts(e: Expr)
    ensures Depth(Tokens(e)) == 0 && Words(Tokens(e)) == WordCount(e) == WordCount(Strip(e)) > 0
  {
    match e
    case Atom(_) =>
    case Group(inner) =>
      TokenCounts(inner);
      CountsConcat([Open], Tokens(inner));
      CountsConcat([Open] + Tokens(inner), [Close]);
    case Unary(sign, operand) =>
      TokenCounts(operand);
      CountsConcat([UnaryToken(sign)], Tokens(operand));
    case Binary(op, l, r) =>
      TokenCounts(l);
      TokenCounts(r);
      CountsConcat(Tokens(l), [Op(op)]);
      CountsConcat(Tokens(l) + [Op(op)], Tokens(r));
  }

  lemma PrefixOfConcat(a: seq<Token>, b: seq<Token>, k: nat)
    requires k <= |a| + |b|
    ensures Depth((a + b)[..k]) == if k <= |a| then Depth(a[..k]) else Depth(a) + Depth(b[..k - |a|])
  {
    if k <= |a| {
      assert (a + b)[..k] == a[..k];
    } else {
      assert (a + b)[..k] == a + b[..k - |a|];
      CountsConcat(a, b[..k - |a|]);
    }
  }

  lemma PrefixOfSigned(t: Token, b: seq<Token>, k: nat)
    requires k <= |b| && !t.Close?
    requires Depth(b[..k]) >= 0
    ensures Depth(([t] + b)[..k + 1]) >= if t.Open? then 1 else 0
  {
    PrefixOfConcat([t], b, k + 1);
    assert [t][..0] == [];
  }

  lemma {:induction false} PrefixDepth(e: Expr, k: nat)
    requires k <= |Tokens(e)|
    ensures Depth(Tokens(e)[..k]) >= 0
    ensures e.Group? && 0 < k < |Tokens(e)| ==> Depth(Tokens(e)[..k]) >= 1
    decreases e
  {
    if k == |Tokens(e)| {
      assert Tokens(e)[..k] == Tokens(e);
      TokenCounts(e);
    } else if k > 0 {
      PrefixDepthInside(e, k);
    }
  }

  lemma {:induction false} PrefixDepthInside(e: Expr, k: nat)
    requires 0 < k < |Tokens(e)|
    ensures Depth(Tokens(e)[..k]) >= if e.Group? then 1 else 0
    decreases e, 0
  {
    match e
    case Atom(_) =>
    case Group(inner) =>
      assert Tokens(e)[..k] == ([Open] + Tokens(inner))[..k];
      PrefixDepth(inner, k - 1);
      PrefixOfSigned(Open, Tokens(inner), k - 1);
    case Unary(sign, operand) =>
      PrefixDepth(operand, k - 1);
      PrefixOfSigned(UnaryToken(sign), Tokens(operand), k - 1);
    case Binary(op, l, r) =>
      PrefixOfBinary(op, l, r, k);
      if k <= |Tokens(l)| {
        PrefixDepth(l, k);
      } else {
        PrefixDepth(r, k - |Tokens(l)| - 1);
      }
  }

  lemma PrefixOfBinary(op: BinaryOp, l: Expr, r: Expr, k: nat)
    requires k <= |Tokens(Binary(op, l, r))|
    ensures Depth(Tokens(Binary(op, l, r))[..k]) ==
            if k <= |Tokens(l)| then Depth(Tokens(l)[..k]) else Depth(Tokens(r)[..k - |Tokens(l)| - 1])
  {
    TokenCounts(l);
    PrefixOfThree(Tokens(l), Op(op), Tokens(r), k);
  }

  lemma PrefixOfThree(a: seq<Token>, t: Token, b: seq<Token>, k: nat)
    requires k <= |a| + 1 + |b| && t.Op? && Depth(a) == 0
    ensures Depth((a + [t] + b)[..k]) == if k <= |a| then Depth(a[..k]) else Depth(b[..k - |a| - 1])
  {
    PrefixOfConcat(a + [t], b, k);
    if k <= |a| + 1 {
      PrefixOfConcat(a, [t], k);
    } else {
      CountsConcat(a, [t]);
    }
    assert [t][..1] == [t] && [t][..0] == [] && b[..0] == [];
  }

  /** A parenthesised tree and a binary one of the same shape never start the same text. */
  lemma GroupIsNotBinary(g: Expr, b: Expr, restG: seq<Token>, restB: seq<Token>)
    requires g.Group? && b.Binary? && Strip(g) == Strip(b)
    ensures Tokens(g) + restG != Tokens(b) + restB
  {
    var whole := Tokens(g) + restG;
    if whole == Tokens(b) + restB {
      TokenCounts(g);
      TokenCounts(b);
      TokenCounts(b.left);
      TokenCounts(b.right);
      var n := |Tokens(b.left)|;
      assert whole[..n] == Tokens(b.left);
      if n < |Tokens(g)| {
        assert whole[..n] == Tokens(g)[..n];
        PrefixDepth(g, n);
      } else {
        var extra := whole[|Tokens(g)|..n];
        assert whole[..n] == Tokens(g) + extra;
        CountsConcat(Tokens(g), extra);
      }
      assert false;
    }
  }

  /** Both sequences start alike, so dropping the same number of tokens leaves them equal. */
  lemma DropBoth(a: seq<Token>, restA: seq<Token>, b: seq<Token>, restB: seq<Token>)
    requires a + restA == b + restB && |a| == |b|
    ensures a == b && restA == restB
  {
    assert a == (a + restA)[..|a|] == (b + restB)[..|a|] == b;
    assert restA == (a + restA)[|a|..] == (b + restB)[|a|..] == restB;
  }

  lemma {:induction false} SameTokensSameTree(a: Expr, b: Expr, restA: seq<Token>, restB: seq<Token>)
    requires Tokens(a) + restA == Tokens(b) + restB && Strip(a) == Strip(b)
    ensures a == b
    decreases a, 1
  {
    FirstTokens(a, b, restA, restB);
    if a.Group? && b.Binary? {
      GroupIsNotBinary(a, b, restA, restB);
    } else if a.Binary? && b.Group? {
      GroupIsNotBinary(b, a, restB, restA);
    } else {
      match a
      case Atom(_) =>
      case Group(inner) =>
        var ra, rb := [Close] + restA, [Close] + restB;
        assert [Open] + (Tokens(inner) + ra) == Tokens(a) + restA;
        assert [Open] + (Tokens(b.inner) + rb) == Tokens(b) + restB;
        DropBoth([Open], Tokens(inner) + ra, [Open], Tokens(b.inner) + rb);
        SameTokensSameTree(inner, b.inner, ra, rb);
      case Unary(sign, operand) =>
        var t := [UnaryToken(sign)];
        assert t + (Tokens(operand) + restA) == Tokens(a) + restA;
        assert t + (Tokens(b.operand) + restB) == Tokens(b) + restB;
        DropBoth(t, Tokens(operand) + restA, t, Tokens(b.operand) + restB);
        SameTokensSameTree(operand, b.operand, restA, restB);
      case Binary(_, _, _) =>
        SameTokensSameBinary(a, b, restA, restB);
    }
  }

  lemma {:induction false} SameTokensSameBinary(a: Expr, b: Expr, restA: seq<Token>, restB: seq<Token>)
    requires Tokens(a) + restA == Tokens(b) + restB && Strip(a) == Strip(b)
    requires a.Binary? && b.Binary?
    ensures a == b
    decreases a, 0
  {
    var op := [Op(a.op)];
    var ra, rb := Tokens(a.right) + restA, Tokens(b.right) + restB;
    assert Tokens(a.left) + (op + ra) == Tokens(a) + restA == Tokens(b) + restB == Tokens(b.left) + (op + rb);
    SameTokensSameTree(a.left, b.left, op + ra, op + rb);
    DropBoth(Tokens(a.left), op + ra, Tokens(b.left), op + rb);
    DropBoth(op, ra, op, rb);
    SameTokensSameTree(a.right, b.right, restA, restB);
  }

  lemma FirstTokens(a: Expr, b: Expr, restA: seq<Token>, restB: seq<Token>)
    requires Tokens(a) + restA == Tokens(b) + restB
    ensures Tokens(a) != [] && Tokens(b) != [] && Tokens(a)[0] == Tokens(b)[0]
  {
    TokenCounts(a);
    TokenCounts(b);
    assert (Tokens(a) + restA)[0] == (Tokens(b) + restB)[0];
  }

  // --------------------------------------------------------------------------
  // Print, then read
  // --------------------------------------------------------------------------

  /** A text in which a sign fuses with what it touches is no expression. */
  lemma FusedIsRefused(levels: Table, ts: seq<Token>)
    requires HasFused(ts)
    ensures Read(levels, ts).None?
  {
    var r := Read(levels, ts);
    if r.Some? {
      ReadExprSound(levels, ts, 0);
      assert Tokens(r.value) + [] == Tokens(r.value);
      TokensNotFused(r.value);
    }
  }

  /** Reading the formatted text gives a tree that is the expression up to parentheses. */
  predicate RoundTrips(levels: Table, e: Expr) {
    Read(levels, Formatted(e)).Some? && Strip(Read(levels, Formatted(e)).value) == Strip(e)
  }

  /**
   The reader recovers the tree, up to parentheses, exactly when the printed tree is
   canonical and no sign touches what it fuses with.
   */
  lemma RoundTripIffCanonical(levels: Table, e: Expr)
    requires Unambiguous(levels)
    ensures RoundTrips(levels, e) <==> Canonical(levels, Explicit(e)) && !Touches(e)
  {
    FormattedIffApart(e);
    if Touches(e) {
      FusedIsRefused(levels, Formatted(e));
    } else {
      PrintedRoundTrip(levels, e);
    }
  }

  lemma PrintedRoundTrip(levels: Table, e: Expr)
    requires Unambiguous(levels)
    ensures (Read(levels, Printed(e)).Some? && Strip(Read(levels, Printed(e)).value) == Strip(e))
            <==> Canonical(levels, Explicit(e))
  {
    var x := Explicit(e);
    StripExplicit(e);
    ReadIffCanonical(levels, Printed(e), x);
    var r := Read(levels, Printed(e));
    if r.Some? && Strip(r.value) == Strip(e) {
      ReadIffCanonical(levels, Printed(e), r.value);
      SameTokensSameTree(r.value, x, [], []);
    }
  }

  /** The formatter's table as a reader's: `Pow` groups to the right, every other operator to the left. */
  function FormatterTable(op: BinaryOp): Option<Infix> {
    Some(if op == Pow then Infix(OperatorPrecedence(Pow), OperatorPrecedence(Pow) + 1, OperatorPrecedence(Pow))
         else LeftAssociative(OperatorPrecedence(op)))
  }

  lemma FormatterTableUnambiguous()
    ensures Unambiguous(FormatterTable)
  {
  }

  /** An operator with its operands. */
  type Pattern = (BinaryOp, Expr, Expr) -> bool

  predicate Somewhere(at: Pattern, e: Expr) {
    match e
    case Atom(_) => false
    case Group(inner) => Somewhere(at, inner)
    case Unary(_, operand) => Somewhere(at, operand)
    case Binary(op, l, r) => at(op, l, r) || Somewhere(at, l) || Somewhere(at, r)
  }

  predicate BareOp(e: Expr, op: BinaryOp) {
    e.Binary? && e.op == op
  }

  /** A power bare as the left operand of a power: `a ^ b ^ c` meaning `(a ^ b) ^ c`. */
  predicate PowLeftOfPow(op: BinaryOp, l: Expr, r: Expr) {
    op == Pow && BareOp(l, Pow)
  }

  lemma ExplicitKeepsOperator(e: Expr)
    ensures Explicit(e).Binary? <==> e.Binary?
    ensures e.Binary? ==> Explicit(e).op == e.op
  {
  }

  lemma {:induction false} CanonicalIffNoPowLeftOfPow(e: Expr)
    ensures Canonical(FormatterTable, Explicit(e)) <==> !Somewhere(PowLeftOfPow, e)
  {
    match e
    case Atom(_) =>
    case Group(inner) => CanonicalIffNoPowLeftOfPow(inner);
    case Unary(_, operand) => CanonicalIffNoPowLeftOfPow(operand);
    case Binary(op, l, r) =>
      CanonicalIffNoPowLeftOfPow(l);
      CanonicalIffNoPowLeftOfPow(r);
      FormatterOperandsFit(op, l, r);
  }

  lemma FormatterOperandsFit(op: BinaryOp, l: Expr, r: Expr)
    ensures FitsLeft(FormatterTable, GroupIf(NeedsParensForChild(l, op, true), Explicit(l)), op)
            && FitsRight(FormatterTable, GroupIf(NeedsParensForChild(r, op, false), Explicit(r)), op)
            <==> !PowLeftOfPow(op, l, r)
  {
    ExplicitKeepsOperator(l);
    ExplicitKeepsOperator(r);
  }

  /** Under the formatter's own table the round trip holds except below a left power and where signs touch. */
  lemma PrintReadRoundTrip(e: Expr)
    ensures RoundTrips(FormatterTable, e) <==> !Somewhere(PowLeftOfPow, e) && !Touches(e)
  {
    FormatterTableUnambiguous();
    RoundTripIffCanonical(FormatterTable, e);
    CanonicalIffNoPowLeftOfPow(e);
  }

  // --------------------------------------------------------------------------
  // Every print is readable, and printing what was read changes nothing
  // --------------------------------------------------------------------------

  /** The operand an expression starts with, and the operators and operands after it. */
  function FirstOperand(e: Expr): Expr {
    if e.Binary? then FirstOperand(e.left) else e
  }

  function Tail(e: Expr): seq<(BinaryOp, Expr)> {
    if e.Binary? then Tail(e.left) + ([(e.op, FirstOperand(e.right))] + Tail(e.right)) else []
  }

  function TailItem(item: (BinaryOp, Expr)): seq<Token> {
    [Op(item.0)] + Tokens(item.1)
  }

  function TailTokens(tail: seq<(BinaryOp, Expr)>): seq<Token> {
    if tail == [] then [] else TailItem(tail[0]) + TailTokens(tail[1..])
  }

  lemma Associates(a: seq<Token>, b: seq<Token>, c: seq<Token>)
    ensures a + b + c == a + (b + c)
  {
  }

  lemma {:induction false} TailTokensConcat(a: seq<(BinaryOp, Expr)>, b: seq<(BinaryOp, Expr)>)
    ensures TailTokens(a + b) == TailTokens(a) + TailTokens(b)
  {
    if a == [] {
      assert a + b == b;
    } else {
      TailTokensConcat(a[1..], b);
      assert (a + b)[0] == a[0] && (a + b)[1..] == a[1..] + b;
      Associates(TailItem(a[0]), TailTokens(a[1..]), TailTokens(b));
    }
  }

  lemma TailTokensCons(op: BinaryOp, operand: Expr, after: seq<(BinaryOp, Expr)>)
    ensures TailTokens([(op, operand)] + after) == [Op(op)] + (Tokens(operand) + TailTokens(after))
  {
    assert ([(op, operand)] + after)[1..] == after;
    Associates([Op(op)], Tokens(operand), TailTokens(after));
  }

  lemma Regroup(a: seq<Token>, b: seq<Token>, c: seq<Token>, d: seq<Token>)
    ensures (a + b) + c + d == a + (b + (c + d))
  {
  }

  lemma {:induction false} TokensAreChain(e: Expr)
    ensures Tokens(e) == Tokens(FirstOperand(e)) + TailTokens(Tail(e))
  {
    if e.Binary? {
      TokensAreChain(e.left);
      TokensAreChain(e.right);
      TailTokensCons(e.op, FirstOperand(e.right), Tail(e.right));
      TailTokensConcat(Tail(e.left), [(e.op, FirstOperand(e.right))] + Tail(e.right));
      Regroup(Tokens(FirstOperand(e.left)), TailTokens(Tail(e.left)), [Op(e.op)], Tokens(e.right));
    }
  }

  predicate ReadableTail(tail: seq<(BinaryOp, Expr)>) {
    forall i :: 0 <= i < |tail| ==> !tail[i].1.Binary? && SignsOperands(tail[i].1)
  }

  lemma {:induction false} ChainSignsOperands(e: Expr)
    requires SignsOperands(e)
    ensures SignsOperands(FirstOperand(e)) && !FirstOperand(e).Binary? && ReadableTail(Tail(e))
  {
    if e.Binary? {
      ChainSignsOperands(e.left);
      ChainSignsOperands(e.right);
    }
  }

  function LevelOf(op: BinaryOp): nat {
    FormatterTable(op).value.level
  }

  function RightOf(op: BinaryOp): nat {
    FormatterTable(op).value.right
  }

  lemma {:induction false} OperandReadable(e: Expr, rest: seq<Token>)
    requires SignsOperands(e) && !e.Binary?
    ensures ReadOperand(FormatterTable, Tokens(e) + rest).Some?
    ensures ReadOperand(FormatterTable, Tokens(e) + rest).value.1 == rest
    decreases |Tokens(e)|, 1
  {
    var ts := Tokens(e) + rest;
    match e
    case Atom(_) =>
      assert ts[1..] == rest;
    case Group(inner) =>
      ChainSignsOperands(inner);
      TokensAreChain(inner);
      assert ts[1..] == Tokens(FirstOperand(inner)) + (TailTokens(Tail(inner)) + ([Close] + rest));
      var _ := ChainReadable(FirstOperand(inner), Tail(inner), [Close] + rest, 0);
    case Unary(_, operand) =>
      assert ts[1..] == Tokens(operand) + rest;
      OperandReadable(operand, rest);
  }

  /** Reading succeeded and stopped at operator `k` of the tail, which binds looser than `min`, or at its end. */
  predicate StopsAt(r: Option<(Expr, seq<Token>)>, tail: seq<(BinaryOp, Expr)>, k: nat, rest: seq<Token>, min: nat) {
    && k <= |tail| && (k < |tail| ==> LevelOf(tail[k].0) < min)
    && r.Some? && r.value.1 == TailTokens(tail[k..]) + rest
  }

  lemma StopsFurther(r: Option<(Expr, seq<Token>)>, tail: seq<(BinaryOp, Expr)>, j: nat, m: nat,
                     rest: seq<Token>, min: nat)
    requires j <= |tail| && StopsAt(r, tail[j..], m, rest, min)
    ensures StopsAt(r, tail, j + m, rest, min)
    ensures tail[j + m..] != [] ==> LevelOf(tail[j + m..][0].0) < min
  {
    TailOfTail(tail, j, m);
  }

  /** Reading a chain succeeds, stops between two operands, and at level 0 takes it all. */
  lemma {:induction false} ChainReadable(first: Expr, tail: seq<(BinaryOp, Expr)>, rest: seq<Token>, min: nat)
    returns (k: nat)
    requires SignsOperands(first) && !first.Binary? && ReadableTail(tail)
    requires rest == [] || !rest[0].Op?
    ensures StopsAt(ReadExpr(FormatterTable, Tokens(first) + (TailTokens(tail) + rest), min), tail, k, rest, min)
    decreases |Tokens(first)| + |TailTokens(tail)|, 2
  {
    OperandReadable(first, TailTokens(tail) + rest);
    var r := ReadOperand(FormatterTable, Tokens(first) + (TailTokens(tail) + rest));
    TokenCounts(first);
    k := TailReadable(r.value.0, tail, rest, min);
  }

  lemma TailWeighs(tail: seq<(BinaryOp, Expr)>)
    requires tail != []
    ensures |Tokens(tail[0].1)| + |TailTokens(tail[1..])| < |TailTokens(tail)|
  {
  }

  lemma TailOfTail(tail: seq<(BinaryOp, Expr)>, j: nat, m: nat)
    requires j <= |tail| && m <= |tail[j..]|
    ensures tail[j..][m..] == tail[j + m..]
    ensures m < |tail[j..]| ==> tail[j..][m] == tail[j + m]
  {
  }

  /** In the formatter's table, whatever reading stopped at may take what was read as its left operand. */
  lemma StandsLeft(lhs: Expr, op: BinaryOp)
    requires lhs.Binary? ==> LevelOf(op) < RightOf(lhs.op)
    ensures FitsLeft(FormatterTable, lhs, op)
  {
  }

  lemma {:induction false} TailReadable(lhs: Expr, tail: seq<(BinaryOp, Expr)>, rest: seq<Token>, min: nat)
    returns (k: nat)
    requires ReadableTail(tail)
    requires rest == [] || !rest[0].Op?
    requires lhs.Binary? && tail != [] ==> LevelOf(tail[0].0) < RightOf(lhs.op)
    ensures StopsAt(ReadRest(FormatterTable, lhs, TailTokens(tail) + rest, min), tail, k, rest, min)
    decreases |TailTokens(tail)|, 3
  {
    if tail == [] || LevelOf(tail[0].0) < min {
      TailEnds(lhs, tail, rest, min);
      k := 0;
    } else {
      TailWeighs(tail);
      TailPartsReadable(tail);
      var j := ChainReadable(tail[0].1, tail[1..], rest, RightOf(tail[0].0));
      var r := ReadExpr(FormatterTable, Tokens(tail[0].1) + (TailTokens(tail[1..]) + rest), RightOf(tail[0].0));
      StopsFurther(r, tail, 1, j, rest, RightOf(tail[0].0));
      var n := 1 + j;
      TailShrinks(tail, n);
      var m := TailReadable(Binary(tail[0].0, lhs, r.value.0), tail[n..], rest, min);
      k := n + m;
      TailGoesOn(lhs, tail, rest, min, n, r, m, k);
    }
  }

  lemma TailGoesOn(lhs: Expr, tail: seq<(BinaryOp, Expr)>, rest: seq<Token>, min: nat,
                   k: nat, r: Option<(Expr, seq<Token>)>, m: nat, end: nat)
    requires end == k + m
    requires tail != [] && min <= LevelOf(tail[0].0)
    requires lhs.Binary? ==> LevelOf(tail[0].0) < RightOf(lhs.op)
    requires r == ReadExpr(FormatterTable, Tokens(tail[0].1) + (TailTokens(tail[1..]) + rest), RightOf(tail[0].0))
    requires StopsAt(r, tail, k, rest, RightOf(tail[0].0))
    requires StopsAt(ReadRest(FormatterTable, Binary(tail[0].0, lhs, r.value.0), TailTokens(tail[k..]) + rest, min),
                     tail[k..], m, rest, min)
    ensures StopsAt(ReadRest(FormatterTable, lhs, TailTokens(tail) + rest, min), tail, end, rest, min)
  {
    TailStep(lhs, tail, rest, min, k, r);
    StopsFurther(ReadRest(FormatterTable, lhs, TailTokens(tail) + rest, min), tail, k, m, rest, min);
  }

  lemma TailEnds(lhs: Expr, tail: seq<(BinaryOp, Expr)>, rest: seq<Token>, min: nat)
    requires tail == [] || LevelOf(tail[0].0) < min
    requires rest == [] || !rest[0].Op?
    ensures StopsAt(ReadRest(FormatterTable, lhs, TailTokens(tail) + rest, min), tail, 0, rest, min)
  {
    assert tail[0..] == tail;
    if tail != [] {
      TailSplit(tail, rest);
    } else {
      assert TailTokens(tail) + rest == rest;
    }
  }

  lemma TailPartsReadable(tail: seq<(BinaryOp, Expr)>)
    requires ReadableTail(tail) && tail != []
    ensures SignsOperands(tail[0].1) && !tail[0].1.Binary?
    ensures forall j :: 0 <= j <= |tail| ==> ReadableTail(tail[j..])
  {
  }

  /** Reading a chain's first operator with its right operand, which ends where operator `k` stands. */
  lemma TailStep(lhs: Expr, tail: seq<(BinaryOp, Expr)>, rest: seq<Token>, min: nat,
                 k: nat, r: Option<(Expr, seq<Token>)>)
    requires tail != [] && min <= LevelOf(tail[0].0)
    requires lhs.Binary? ==> LevelOf(tail[0].0) < RightOf(lhs.op)
    requires r == ReadExpr(FormatterTable, Tokens(tail[0].1) + (TailTokens(tail[1..]) + rest), RightOf(tail[0].0))
    requires StopsAt(r, tail, k, rest, RightOf(tail[0].0))
    ensures ReadRest(FormatterTable, lhs, TailTokens(tail) + rest, min) ==
            ReadRest(FormatterTable, Binary(tail[0].0, lhs, r.value.0), TailTokens(tail[k..]) + rest, min)
  {
    TailSplit(tail, rest);
    StandsLeft(lhs, tail[0].0);
    ReadRestStep(lhs, tail[0].0, Tokens(tail[0].1) + (TailTokens(tail[1..]) + rest), min);
  }

  lemma TailSplit(tail: seq<(BinaryOp, Expr)>, rest: seq<Token>)
    requires tail != []
    ensures TailTokens(tail) + rest == [Op(tail[0].0)] + (Tokens(tail[0].1) + (TailTokens(tail[1..]) + rest))
    ensures |TailTokens(tail)| == 1 + |Tokens(tail[0].1)| + |TailTokens(tail[1..])|
  {
    Associates(TailItem(tail[0]), TailTokens(tail[1..]), rest);
    Associates([Op(tail[0].0)], Tokens(tail[0].1), TailTokens(tail[1..]) + rest);
  }

  lemma ReadRestStep(lhs: Expr, op: BinaryOp, inside: seq<Token>, min: nat)
    requires min <= LevelOf(op) && FitsLeft(FormatterTable, lhs, op)
    requires ReadExpr(FormatterTable, inside, RightOf(op)).Some?
    ensures var r := ReadExpr(FormatterTable, inside, RightOf(op)).value;
            ReadRest(FormatterTable, lhs, [Op(op)] + inside, min)
            == ReadRest(FormatterTable, Binary(op, lhs, r.0), r.1, min)
  {
    assert ([Op(op)] + inside)[1..] == inside;
  }

  lemma TailShrinks(tail: seq<(BinaryOp, Expr)>, k: nat)
    requires 0 < k <= |tail|
    ensures |TailTokens(tail[k..])| < |TailTokens(tail)|
  {
    assert tail == tail[..k] + tail[k..];
    TailTokensConcat(tail[..k], tail[k..]);
  }

  lemma {:induction false} CanonicalIsExplicit(e: Expr)
    requires Canonical(FormatterTable, e)
    ensures Explicit(e) == e
  {
    match e
    case Atom(_) =>
    case Group(inner) => CanonicalIsExplicit(inner);
    case Unary(_, operand) => CanonicalIsExplicit(operand);
    case Binary(_, l, r) => CanonicalIsExplicit(l); CanonicalIsExplicit(r);
  }

  /** The printer's output is an expression. */
  lemma PrintedIsReadable(e: Expr)
    ensures Read(FormatterTable, Printed(e)).Some?
  {
    var x := Explicit(e);
    ExplicitSignsOperands(e);
    ChainSignsOperands(x);
    TokensAreChain(x);
    assert Printed(e) == Tokens(FirstOperand(x)) + (TailTokens(Tail(x)) + []);
    var k := ChainReadable(FirstOperand(x), Tail(x), [], 0);
    assert k == |Tail(x)|;
    assert Tail(x)[k..] == [];
  }

  /** Scanning a text's tokens: a sign stands where an operand may start, and fuses with its neighbour. */
  predicate AnyTouch(ts: seq<Token>, operandNext: bool) {
    ts != [] &&
    if operandNext && TakenAlong(ts[0]) != "" then
      (|ts| > 1 && Fuses(ts[0], ts[1])) || AnyTouch(ts[1..], true)
    else AnyTouch(ts[1..], !ts[0].Word? && !ts[0].Close?)
  }

  lemma {:induction false} TokensFirst(e: Expr)
    ensures Tokens(e) != [] && Tokens(e)[0] == FirstToken(e)
  {
    if e.Binary? {
      TokensFirst(e.left);
    }
  }

  lemma ScanToken(t: Token, rest: seq<Token>, operandNext: bool)
    requires !operandNext || TakenAlong(t) == ""
    ensures AnyTouch([t] + rest, operandNext) <==> AnyTouch(rest, !t.Word? && !t.Close?)
  {
    assert ([t] + rest)[1..] == rest;
  }

  lemma ScanSign(sign: UnaryOp, operand: Expr, rest: seq<Token>)
    requires !operand.Binary?
    ensures AnyTouch([UnaryToken(sign)] + (Tokens(operand) + rest), true)
            <==> SignTouches(sign, operand) || AnyTouch(Tokens(operand) + rest, true)
  {
    TokensFirst(operand);
    SignTouchesFirst(sign, operand);
    assert ([UnaryToken(sign)] + (Tokens(operand) + rest))[1..] == Tokens(operand) + rest;
  }

  /** Whether signs touch is told by the tokens alone. */
  lemma {:induction false} ScanTouches(e: Expr, rest: seq<Token>)
    requires SignsOperands(e)
    ensures AnyTouch(Tokens(e) + rest, true) <==> Touches(e) || AnyTouch(rest, false)
    decreases e
  {
    match e
    case Atom(t) =>
      ScanToken(Word(t), rest, true);
    case Group(inner) =>
      RejoinTokens([Open] + Tokens(inner), [Close], rest);
      RejoinTokens([Open], Tokens(inner), [Close] + rest);
      ScanTouches(inner, [Close] + rest);
      ScanToken(Close, rest, false);
      ScanToken(Open, Tokens(inner) + ([Close] + rest), true);
    case Unary(sign, operand) =>
      RejoinTokens([UnaryToken(sign)], Tokens(operand), rest);
      ScanTouches(operand, rest);
      ScanSign(sign, operand, rest);
    case Binary(op, l, r) =>
      Fold(l, op, r, rest);
      ScanTouches(r, rest);
      ScanToken(Op(op), Tokens(r) + rest, false);
      ScanTouches(l, [Op(op)] + (Tokens(r) + rest));
  }

  lemma {:induction false} CanonicalSignsOperands(levels: Table, e: Expr)
    requires Canonical(levels, e)
    ensures SignsOperands(e)
  {
    match e
    case Atom(_) =>
    case Group(inner) => CanonicalSignsOperands(levels, inner);
    case Unary(_, operand) => CanonicalSignsOperands(levels, operand);
    case Binary(_, l, r) => CanonicalSignsOperands(levels, l); CanonicalSignsOperands(levels, r);
  }

  lemma SameTokensTouchAlike(a: Expr, b: Expr)
    requires SignsOperands(a) && SignsOperands(b) && Tokens(a) == Tokens(b)
    ensures Touches(a) <==> Touches(b)
  {
    ScanTouches(a, []);
    ScanTouches(b, []);
  }

  /**
   The formatter's output is an expression exactly when no sign touches what it fuses
   with; then reading it and formatting again gives the same text.
   */
  lemma PrintIdempotent(e: Expr)
    ensures Read(FormatterTable, Formatted(e)).Some? <==> !Touches(e)
    ensures !Touches(e) ==> Formatted(Read(FormatterTable, Formatted(e)).value) == Formatted(e)
  {
    FormattedIffApart(e);
    if Touches(e) {
      FusedIsRefused(FormatterTable, Formatted(e));
    } else {
      PrintedIsReadable(e);
      var t := Read(FormatterTable, Printed(e)).value;
      FormatterTableUnambiguous();
      ReadIffCanonical(FormatterTable, Printed(e), t);
      CanonicalIsExplicit(t);
      CanonicalSignsOperands(FormatterTable, t);
      ExplicitSignsOperands(e);
      SameTokensTouchAlike(t, Explicit(e));
      FormattedIffApart(t);
    }
  }

  // --------------------------------------------------------------------------
  // The language's grammar: one level for all six comparisons, `..` between single
  // operands, `|>` into a single operand, and no infix comma
  // --------------------------------------------------------------------------

  /** Only what is not an operator expression binds this tightly. */
  const OPERAND: nat := 9

  function GrammarTable(op: BinaryOp): Option<Infix> {
    match op
    case Pipe => Some(Infix(0, 0, OPERAND))
    case Or => Some(LeftAssociative(1))
    case And => Some(LeftAssociative(2))
    case Eq | Neq | Lt | Gt | Le | Ge => Some(LeftAssociative(4))
    case Add | Sub => Some(LeftAssociative(5))
    case Mul | Div | Mod => Some(LeftAssociative(6))
    case Pow => Some(Infix(7, 8, 7))
    case Range => Some(Infix(8, OPERAND, OPERAND))
    case Comma => None
  }

  lemma GrammarTableUnambiguous()
    ensures Unambiguous(GrammarTable)
  {
  }

  predicate IsEquality(op: BinaryOp) { op == Eq || op == Neq }

  predicate IsOrdering(op: BinaryOp) { op == Lt || op == Gt || op == Le || op == Ge }

  /** An ordering comparison bare as the right operand of `==` or `<>`. */
  predicate OrderingRightOfEquality(op: BinaryOp, l: Expr, r: Expr) {
    IsEquality(op) && r.Binary? && IsOrdering(r.op)
  }

  /** A range bare as the left operand of a range. */
  predicate RangeLeftOfRange(op: BinaryOp, l: Expr, r: Expr) {
    op == Range && BareOp(l, Range)
  }

  /** An operator expression bare behind `|>`; the printer groups a pipe there. */
  predicate OperatorRightOfPipe(op: BinaryOp, l: Expr, r: Expr) {
    op == Pipe && r.Binary? && r.op != Pipe
  }

  /** The operators that the grammar does not read as the printer writes them. */
  predicate Misread(op: BinaryOp, l: Expr, r: Expr) {
    || PowLeftOfPow(op, l, r) || OrderingRightOfEquality(op, l, r)
    || RangeLeftOfRange(op, l, r) || OperatorRightOfPipe(op, l, r) || op == Comma
  }

  lemma LeftOperandFits(op: BinaryOp, l: Expr)
    requires op != Comma && !BareOp(l, Comma)
    ensures FitsLeft(GrammarTable, GroupIf(NeedsParensForChild(l, op, true), Explicit(l)), op)
            <==> !PowLeftOfPow(op, l, l) && !RangeLeftOfRange(op, l, l)
  {
    ExplicitKeepsOperator(l);
  }

  lemma RightOperandFits(op: BinaryOp, r: Expr)
    requires op != Comma && !BareOp(r, Comma)
    ensures FitsRight(GrammarTable, GroupIf(NeedsParensForChild(r, op, false), Explicit(r)), op)
            <==> !OrderingRightOfEquality(op, r, r) && !OperatorRightOfPipe(op, r, r)
  {
    ExplicitKeepsOperator(r);
  }

  lemma {:induction false} CanonicalUnderGrammar(e: Expr)
    ensures Canonical(GrammarTable, Explicit(e)) <==> !Somewhere(Misread, e)
  {
    match e
    case Atom(_) =>
    case Group(inner) => CanonicalUnderGrammar(inner);
    case Unary(_, operand) => CanonicalUnderGrammar(operand);
    case Binary(op, l, r) =>
      CanonicalUnderGrammar(l);
      CanonicalUnderGrammar(r);
      if op != Comma && !BareOp(l, Comma) && !BareOp(r, Comma) {
        LeftOperandFits(op, l);
        RightOperandFits(op, r);
      }
  }

  /** Read by the grammar, the text gives the tree up to grouping unless an operator is misread or signs touch. */
  lemma PrintReadRoundTripUnderGrammar(e: Expr)
    ensures RoundTrips(GrammarTable, e) <==> !Somewhere(Misread, e) && !Touches(e)
  {
    GrammarTableUnambiguous();
    RoundTripIffCanonical(GrammarTable, e);
    CanonicalUnderGrammar(e);
  }

  /** `==` or `<>` bare as the left operand of an ordering comparison. */
  predicate EqualityLeftOfOrdering(op: BinaryOp, l: Expr, r: Expr) {
    IsOrdering(op) && l.Binary? && IsEquality(l.op)
  }

  lemma {:induction false} ExplicitOnlyAdds(e: Expr)
    ensures |Tokens(e)| <= |Tokens(Explicit(e))|
    ensures |Tokens(e)| == |Tokens(Explicit(e))| <==> Explicit(e) == e
  {
    match e
    case Atom(_) =>
    case Group(inner) => ExplicitOnlyAdds(inner);
    case Unary(_, operand) => ExplicitOnlyAdds(operand);
    case Binary(_, l, r) => ExplicitOnlyAdds(l); ExplicitOnlyAdds(r);
  }

  lemma GrammarOperandsBare(op: BinaryOp, l: Expr, r: Expr)
    requires FitsLeft(GrammarTable, l, op) && FitsRight(GrammarTable, r, op)
    ensures !NeedsParensForChild(r, op, false)
    ensures NeedsParensForChild(l, op, true) <==> EqualityLeftOfOrdering(op, l, r)
  {
  }

  lemma {:induction false} GrammarTreeExplicit(e: Expr)
    requires Canonical(GrammarTable, e)
    ensures Explicit(e) == e <==> !Somewhere(EqualityLeftOfOrdering, e)
  {
    match e
    case Atom(_) =>
    case Group(inner) => GrammarTreeExplicit(inner);
    case Unary(_, operand) => GrammarTreeExplicit(operand);
    case Binary(op, l, r) =>
      GrammarTreeExplicit(l);
      GrammarTreeExplicit(r);
      GrammarOperandsBare(op, l, r);
  }

  /**
   Formatting a text that the grammar reads gives back its tokens, except that
   `a == b < c` gains parentheses and that signs that were apart come to touch.
   */
  lemma FormatKeepsTokens(ts: seq<Token>)
    requires Read(GrammarTable, ts).Some?
    ensures Formatted(Read(GrammarTable, ts).value) == ts
            <==> && !Somewhere(EqualityLeftOfOrdering, Read(GrammarTable, ts).value)
                 && !Touches(Read(GrammarTable, ts).value)
  {
    var e := Read(GrammarTable, ts).value;
    GrammarTableUnambiguous();
    ReadIffCanonical(GrammarTable, ts, e);
    ExplicitOnlyAdds(e);
    GrammarTreeExplicit(e);
    FormattedIffApart(e);
    TokensNotFused(e);
  }

  // --------------------------------------------------------------------------
  // Inputs on which the round trip fails
  // --------------------------------------------------------------------------

  const LEFT_POWER := Binary(Pow, Binary(Pow, Atom("2"), Atom("3")), Atom("2"))

  const EQUAL_TO_ORDERING := Binary(Eq, Atom("a"), Binary(Lt, Atom("b"), Atom("c")))

  const RANGE_OF_RANGE := Binary(Range, Binary(Range, Atom("a"), Atom("b")), Atom("c"))

  const PIPE_INTO_SUM := Binary(Pipe, Atom("a"), Binary(Add, Atom("b"), Atom("c")))

  lemma LeftPowerIsWritten()
    ensures Formatted(LEFT_POWER) == [Word("2"), Op(Pow), Word("3"), Op(Pow), Word("2")]
  {
    var power := Binary(Pow, Atom("2"), Atom("3"));
    assert LEFT_POWER == Binary(Pow, power, Atom("2")) && !Touches(power);
    assert Explicit(power) == power && Explicit(LEFT_POWER) == LEFT_POWER;
    assert Tokens(power) == [Word("2"), Op(Pow), Word("3")];
    FormattedIffApart(LEFT_POWER);
  }

  /** `(2 ^ 3) ^ 2` without its parentheses in the tree is written `2 ^ 3 ^ 2`, which reads as `2 ^ (3 ^ 2)`. */
  lemma LeftPowerIsMisread()
    ensures Formatted(LEFT_POWER) == [Word("2"), Op(Pow), Word("3"), Op(Pow), Word("2")]
    ensures Read(FormatterTable, Formatted(LEFT_POWER))
            == Some(Binary(Pow, Atom("2"), Binary(Pow, Atom("3"), Atom("2"))))
  {
    LeftPowerIsWritten();
    var t := Binary(Pow, Atom("2"), Binary(Pow, Atom("3"), Atom("2")));
    FormatterTableUnambiguous();
    assert Tokens(Binary(Pow, Atom("3"), Atom("2"))) == [Word("3"), Op(Pow), Word("2")];
    assert Tokens(t) == Formatted(LEFT_POWER);
    ReadIffCanonical(FormatterTable, Formatted(LEFT_POWER), t);
  }

  lemma EqualToOrderingIsMisread()
    ensures Read(GrammarTable, Formatted(EQUAL_TO_ORDERING))
            == Some(Binary(Lt, Binary(Eq, Atom("a"), Atom("b")), Atom("c")))
  {
    FormattedIffApart(EQUAL_TO_ORDERING);
    var t := Binary(Lt, Binary(Eq, Atom("a"), Atom("b")), Atom("c"));
    GrammarTableUnambiguous();
    ComparisonTokens("a", Eq, "b", Lt, "c");
    assert Explicit(EQUAL_TO_ORDERING) == EQUAL_TO_ORDERING;
    assert Canonical(GrammarTable, t);
    ReadIffCanonical(GrammarTable, Formatted(EQUAL_TO_ORDERING), t);
  }

  lemma ComparisonTokens(a: string, p: BinaryOp, b: string, q: BinaryOp, c: string)
    ensures Tokens(Binary(p, Atom(a), Binary(q, Atom(b), Atom(c)))) == [Word(a), Op(p), Word(b), Op(q), Word(c)]
    ensures Tokens(Binary(q, Binary(p, Atom(a), Atom(b)), Atom(c))) == [Word(a), Op(p), Word(b), Op(q), Word(c)]
  {
    assert Tokens(Binary(q, Atom(b), Atom(c))) == [Word(b), Op(q), Word(c)];
    assert Tokens(Binary(p, Atom(a), Atom(b))) == [Word(a), Op(p), Word(b)];
  }

  /** `a..b..c` is no expression of the grammar. */
  lemma RangeOfRangeIsRefused()
    ensures Formatted(RANGE_OF_RANGE) == [Word("a"), Op(Range), Word("b"), Op(Range), Word("c")]
    ensures Read(GrammarTable, Formatted(RANGE_OF_RANGE)).None?
  {
    FormattedIffApart(RANGE_OF_RANGE);
    RefusedChain("a", Range, "b", Range, "c");
  }

  lemma PipeIntoSumIsWritten()
    ensures Formatted(PIPE_INTO_SUM) == [Word("a"), Op(Pipe), Word("b"), Op(Add), Word("c")]
  {
    var sum := Binary(Add, Atom("b"), Atom("c"));
    assert PIPE_INTO_SUM == Binary(Pipe, Atom("a"), sum) && !Touches(sum);
    assert Explicit(sum) == sum && Explicit(PIPE_INTO_SUM) == PIPE_INTO_SUM;
    assert Tokens(sum) == [Word("b"), Op(Add), Word("c")];
    FormattedIffApart(PIPE_INTO_SUM);
  }

  /** `a |> b + c` is no expression of the grammar. */
  lemma PipeIntoSumIsRefused()
    ensures Formatted(PIPE_INTO_SUM) == [Word("a"), Op(Pipe), Word("b"), Op(Add), Word("c")]
    ensures Read(GrammarTable, Formatted(PIPE_INTO_SUM)).None?
  {
    PipeIntoSumIsWritten();
    RefusedChain("a", Pipe, "b", Add, "c");
  }

  const DOUBLE_MINUS := Unary(Neg, Unary(Neg, Atom("5")))

  /** `- -5` is read, and written `--5`, whose first token is another one. */
  lemma DoubleMinusIsRefused()
    ensures Read(GrammarTable, [Op(Sub), Op(Sub), Word("5")]) == Some(DOUBLE_MINUS)
    ensures Formatted(DOUBLE_MINUS) == [Fused(Op(Sub), Op(Sub)), Word("5")]
    ensures TokenText(Fused(Op(Sub), Op(Sub))) == "--"
    ensures Read(GrammarTable, Formatted(DOUBLE_MINUS)).None? && Read(FormatterTable, Formatted(DOUBLE_MINUS)).None?
  {
    GrammarTableUnambiguous();
    assert Tokens(Unary(Neg, Atom("5"))) == [Op(Sub), Word("5")];
    assert Tokens(DOUBLE_MINUS) == [Op(Sub), Op(Sub), Word("5")];
    ReadIffCanonical(GrammarTable, [Op(Sub), Op(Sub), Word("5")], DOUBLE_MINUS);
    assert Spelled(Unary(Neg, Atom("5"))) == [Tok(Op(Sub)), Tok(Word("5"))];
    assert Spelled(Explicit(DOUBLE_MINUS)) == [Tok(Op(Sub)), Tok(Op(Sub))] + [Tok(Word("5"))];
    LexFused(Op(Sub), Op(Sub), [Tok(Word("5"))]);
    assert Formatted(DOUBLE_MINUS)[0].Fused?;
    FusedIsRefused(GrammarTable, Formatted(DOUBLE_MINUS));
    FusedIsRefused(FormatterTable, Formatted(DOUBLE_MINUS));
  }

  /** `!` touches a match that starts with `??`, and `!?` opens a try block. */
  lemma NotOfMatchIsRefused(body: string)
    ensures var e := Unary(Not, Atom("??" + body));
            Touches(e) && !Somewhere(Misread, e) && Read(GrammarTable, Formatted(e)).None?
  {
    var e := Unary(Not, Atom("??" + body));
    assert TokenText(Word("??" + body))[0] == '?';
    FormattedIffApart(e);
    FusedIsRefused(GrammarTable, Formatted(e));
  }

  /** Two operators of which neither may hold the other bare. */
  lemma RefusedChain(a: string, p: BinaryOp, b: string, q: BinaryOp, c: string)
    requires GrammarTable(p).Some? && GrammarTable(q).Some?
    requires !AtLeast(GrammarTable, q, GrammarTable(p).value.right)
    requires !AtLeast(GrammarTable, p, GrammarTable(q).value.left)
    ensures Read(GrammarTable, [Word(a), Op(p), Word(b), Op(q), Word(c)]).None?
  {
    var ts := [Word(a), Op(p), Word(b), Op(q), Word(c)];
    var tail := [Op(q), Word(c)];
    assert ts[1..] == [Op(p), Word(b)] + tail && ts[1..][1..] == [Word(b)] + tail && ([Word(b)] + tail)[1..] == tail;
    var lhs := Binary(p, Atom(a), Atom(b));
    assert ReadExpr(GrammarTable, [Word(b)] + tail, GrammarTable(p).value.right) == Some((Atom(b), tail));
    assert ReadRest(GrammarTable, lhs, tail, 0) == Some((lhs, tail));
    assert ReadRest(GrammarTable, Atom(a), ts[1..], 0) == ReadRest(GrammarTable, lhs, tail, 0);
    assert ReadOperand(GrammarTable, ts) == Some((Atom(a), ts[1..]));
  }
}
