/**
 Everything a program holds, as one list of tokens that the program can be told from,
 and the proof that the formatter's words are the texts of this list, in its order.
 */
module Contents {
  import opened Options
  import opened Syntax
  import opened Output
  import opened Layout

  // --------------------------------------------------------------------------
  // Tokens
  // --------------------------------------------------------------------------

  /** The constructs that are printed with a keyword. */
  datatype Key =
    | IfKey | ElseIfKey | ElseKey | LoopKey | TryKey | CatchKey | ErrorKey | FinallyKey
    | MatchKey | ArrowKey | TuiKey | OpenKey | CloseKey | ImportKey | ExportKey | ModuleKey | CommaKey

  function Keyword(key: Key): string {
    match key
    case IfKey => "?"
    case ElseIfKey => "_?"
    case ElseKey => "_"
    case LoopKey => "@"
    case TryKey => "!?"
    case CatchKey => ":!"
    case ErrorKey => "##"
    case FinallyKey => ":>"
    case MatchKey => "??"
    case ArrowKey => "=>"
    case TuiKey => ">>|"
    case OpenKey => "{"
    case CloseKey => "}"
    case ImportKey => "<#"
    case ExportKey => "#>"
    case ModuleKey => "#"
    case CommaKey => ","
  }

  /** Every construct has a keyword, and no two have the same. */
  lemma KeywordsTell(s: Key, t: Key)
    ensures Keyword(s) != "" && (Keyword(s) == Keyword(t) ==> s == t)
  {
  }

  /** What a part is where no keyword tells it. A tag holds no text of the program and no part of it. */
  datatype Tag =
    | PlainTag(kind: PlainKind) | FunctionTag | MatchStatement
    | TextFragment | MatchFragment | LambdaFragment
    | ImportSectionTag | ExportSectionTag | StatementSectionTag
    | Present | Absent | Stop

  /** Keywords and texts are printed; `Here` and `End` are the lines where constructs begin and end. */
  datatype Token =
    | Keyed(key: Key) | Txt(text: string) | Here(line: nat) | End(line: nat)
    | Tagged(tag: Tag) | Spot(span: Span) | Line(scrutineeEnd: nat)

  datatype Tokens = Nil | Cons(head: Token, tail: Tokens)

  function CodeTokens(code: Code, rest: Tokens): Tokens
    decreases code
  {
    if code == [] then Cons(Tagged(Stop), rest) else FragmentTokens(code[0], CodeTokens(code[1..], rest))
  }

  function FragmentTokens(f: Fragment, rest: Tokens): Tokens
    decreases f
  {
    match f
    case Text(t) => Cons(Tagged(TextFragment), Cons(Txt(t), rest))
    case MatchPart(m) => Cons(Tagged(MatchFragment), MatchTokens(m, rest))
    case LambdaBody(b) => Cons(Tagged(LambdaFragment), BlockTokens(b, rest))
  }

  function BlockTokens(b: Block, rest: Tokens): Tokens
    decreases b
  {
    var close := Cons(Here(b.span.endLine), Cons(Keyed(CloseKey), rest));
    Cons(Spot(b.span), Cons(Keyed(OpenKey), StatementsTokens(b.statements, close)))
  }

  function StatementsTokens(ss: seq<Statement>, rest: Tokens): Tokens
    decreases ss
  {
    if ss == [] then Cons(Tagged(Stop), rest) else StatementTokens(ss[0], StatementsTokens(ss[1..], rest))
  }

  function StatementTokens(s: Statement, rest: Tokens): Tokens
    decreases s, 1
  {
    var span := s.GetSpan();
    Cons(Here(span.startLine), Cons(Spot(span), BodyTokens(s, Cons(End(span.endLine), rest))))
  }

  function BodyTokens(s: Statement, rest: Tokens): Tokens
    decreases s, 0
  {
    match s
    case Plain(kind, code, _) => Cons(Tagged(PlainTag(kind)), CodeTokens(code, rest))
    case If(cond, t, elifs, els, _) =>
      Cons(Keyed(IfKey), CodeTokens(cond, BlockTokens(t, ElseIfsTokens(elifs, ElseTokens(els, rest)))))
    case Loop(head, b, _) => Cons(Keyed(LoopKey), CodeTokens(head, BlockTokens(b, rest)))
    case Try(t, catches, fin, _) =>
      Cons(Keyed(TryKey), BlockTokens(t, CatchesTokens(catches, FinallyTokens(fin, rest))))
    case FunctionDecl(signature, b, _) => Cons(Tagged(FunctionTag), Cons(Txt(signature), BlockTokens(b, rest)))
    case Match(m) => Cons(Tagged(MatchStatement), MatchTokens(m, rest))
    case TuiBlock(b, _) => Cons(Keyed(TuiKey), BlockTokens(b, rest))
  }

  function ElseIfsTokens(es: seq<ElseIf>, rest: Tokens): Tokens
    decreases es
  {
    if es == [] then Cons(Tagged(Stop), rest)
    else Cons(Keyed(ElseIfKey), CodeTokens(es[0].condition, BlockTokens(es[0].block, ElseIfsTokens(es[1..], rest))))
  }

  function ElseTokens(els: Option<Block>, rest: Tokens): Tokens
    decreases els
  {
    if els.None? then Cons(Tagged(Absent), rest) else Cons(Keyed(ElseKey), BlockTokens(els.value, rest))
  }

  function CatchesTokens(cs: seq<Catch>, rest: Tokens): Tokens
    decreases cs
  {
    if cs == [] then Cons(Tagged(Stop), rest) else CatchTokens(cs[0], CatchesTokens(cs[1..], rest))
  }

  function CatchTokens(c: Catch, rest: Tokens): Tokens
    decreases c
  {
    var block := BlockTokens(c.block, rest);
    Cons(Keyed(CatchKey),
         if c.errorType.Some? then Cons(Keyed(ErrorKey), Cons(Txt(c.errorType.value), block))
         else Cons(Tagged(Absent), block))
  }

  function FinallyTokens(fin: Option<Block>, rest: Tokens): Tokens
    decreases fin
  {
    if fin.None? then Cons(Tagged(Absent), rest) else Cons(Keyed(FinallyKey), BlockTokens(fin.value, rest))
  }

  function MatchTokens(m: MatchExpr, rest: Tokens): Tokens
    decreases m
  {
    var close := Cons(Here(m.span.endLine), Cons(Keyed(CloseKey), rest));
    var arms := Cons(Keyed(OpenKey), CasesTokens(m.cases, close));
    Cons(Spot(m.span), Cons(Line(m.scrutineeEnd), Cons(Keyed(MatchKey), CodeTokens(m.scrutinee, arms))))
  }

  function CasesTokens(cs: seq<MatchCase>, rest: Tokens): Tokens
    decreases cs
  {
    if cs == [] then Cons(Tagged(Stop), rest) else CaseTokens(cs[0], CasesTokens(cs[1..], rest))
  }

  function CaseTokens(c: MatchCase, rest: Tokens): Tokens
    decreases c
  {
    var value := CodeTokens(c.value, CaseBlockTokens(c.block, Cons(End(c.span.endLine), rest)));
    Cons(Here(c.span.startLine), Cons(Spot(c.span), Cons(Txt(c.pattern), Cons(Keyed(ArrowKey), value))))
  }

  function CaseBlockTokens(block: Option<Block>, rest: Tokens): Tokens
    decreases block
  {
    if block.None? then Cons(Tagged(Absent), rest) else Cons(Tagged(Present), BlockTokens(block.value, rest))
  }

  function ImportTokens(i: ImportStmt, rest: Tokens): Tokens {
    var alias := Cons(Keyed(ArrowKey), Cons(Txt(i.alias), Cons(End(i.span.endLine), rest)));
    Cons(Here(i.span.startLine), Cons(Spot(i.span), Cons(Keyed(ImportKey), Cons(Txt(i.path), alias))))
  }

  /** The items from `i` on, each with the comma behind it if there is one. */
  function ItemsTokens(items: seq<string>, commas: seq<bool>, i: nat, rest: Tokens): Tokens
    decreases |items| - i
  {
    if i >= |items| then Cons(Tagged(Stop), rest)
    else
      var comma := if CommaAfter(commas, i) then Keyed(CommaKey) else Tagged(Absent);
      Cons(Txt(items[i]), Cons(comma, ItemsTokens(items, commas, i + 1, rest)))
  }

  /** The flags that tell where commas are, those behind the last item included. */
  function CommasTokens(commas: seq<bool>, rest: Tokens): Tokens {
    if commas == [] then Cons(Tagged(Stop), rest)
    else Cons(Tagged(if commas[0] then Present else Absent), CommasTokens(commas[1..], rest))
  }

  function ExportTokens(b: ExportBlock, rest: Tokens): Tokens {
    var items := ItemsTokens(b.items, b.commas, 0, Cons(Keyed(CloseKey), Cons(End(b.span.endLine), rest)));
    var inside := Cons(Keyed(ExportKey), Cons(Keyed(OpenKey), items));
    Cons(Here(b.span.startLine), Cons(Spot(b.span), CommasTokens(b.commas, inside)))
  }

  function SectionTokens(s: Section, rest: Tokens): Tokens {
    match s
    case ImportSection(i) => Cons(Tagged(ImportSectionTag), ImportTokens(i, rest))
    case ExportSection(b) => Cons(Tagged(ExportSectionTag), ExportTokens(b, rest))
    case StatementSection(stmt) => Cons(Tagged(StatementSectionTag), StatementTokens(stmt, rest))
  }

  function SectionsTokens(ss: seq<Section>, rest: Tokens): Tokens {
    if ss == [] then Cons(Tagged(Stop), rest) else SectionTokens(ss[0], SectionsTokens(ss[1..], rest))
  }

  function FooterTokens(p: Program): Tokens {
    if p.moduleDecl.None? then Nil else Cons(Here(p.moduleDecl.value.span.endLine), Cons(Keyed(CloseKey), Nil))
  }

  /** All of a program: its module's header, its sections as they are printed, and the closing brace. */
  function ProgramTokens(p: Program): Tokens {
    var sections := SectionsTokens(Sections(p), FooterTokens(p));
    if p.moduleDecl.None? then Cons(Tagged(Absent), sections)
    else
      var m := p.moduleDecl.value;
      var name := Cons(Keyed(ModuleKey), Cons(Txt(m.name), Cons(Keyed(OpenKey), sections)));
      Cons(Tagged(Present), Cons(Spot(m.span), Cons(Here(m.span.startLine), name)))
  }

  // --------------------------------------------------------------------------
  // The tokens tell the program
  // --------------------------------------------------------------------------

  lemma {:induction false} CodeTold(x: Code, y: Code, r: Tokens, s: Tokens)
    requires CodeTokens(x, r) == CodeTokens(y, s)
    ensures x == y && r == s
    decreases x
  {
    if x != [] && y != [] {
      FragmentTold(x[0], y[0], CodeTokens(x[1..], r), CodeTokens(y[1..], s));
      CodeTold(x[1..], y[1..], r, s);
      assert x == [x[0]] + x[1..] && y == [y[0]] + y[1..];
    }
  }

  lemma {:induction false} FragmentTold(x: Fragment, y: Fragment, r: Tokens, s: Tokens)
    requires FragmentTokens(x, r) == FragmentTokens(y, s)
    ensures x == y && r == s
    decreases x
  {
    match (x, y)
    case (MatchPart(m), MatchPart(n)) => MatchTold(m, n, r, s);
    case (LambdaBody(b), LambdaBody(c)) => BlockTold(b, c, r, s);
    case _ =>
  }

  lemma {:induction false} BlockTold(x: Block, y: Block, r: Tokens, s: Tokens)
    requires BlockTokens(x, r) == BlockTokens(y, s)
    ensures x == y && r == s
    decreases x
  {
    StatementsTold(x.statements, y.statements,
                   Cons(Here(x.span.endLine), Cons(Keyed(CloseKey), r)),
                   Cons(Here(y.span.endLine), Cons(Keyed(CloseKey), s)));
  }

  lemma {:induction false} StatementsTold(x: seq<Statement>, y: seq<Statement>, r: Tokens, s: Tokens)
    requires StatementsTokens(x, r) == StatementsTokens(y, s)
    ensures x == y && r == s
    decreases x
  {
    if x != [] && y != [] {
      StatementTold(x[0], y[0], StatementsTokens(x[1..], r), StatementsTokens(y[1..], s));
      StatementsTold(x[1..], y[1..], r, s);
      assert x == [x[0]] + x[1..] && y == [y[0]] + y[1..];
    }
  }

  lemma {:induction false} StatementTold(x: Statement, y: Statement, r: Tokens, s: Tokens)
    requires StatementTokens(x, r) == StatementTokens(y, s)
    ensures x == y && r == s
    decreases x, 1
  {
    BodyTold(x, y, Cons(End(x.GetSpan().endLine), r), Cons(End(y.GetSpan().endLine), s));
  }

  lemma {:induction false} BodyTold(x: Statement, y: Statement, r: Tokens, s: Tokens)
    requires x.GetSpan() == y.GetSpan() && BodyTokens(x, r) == BodyTokens(y, s)
    ensures x == y && r == s
    decreases x, 0
  {
    match (x, y)
    case (Plain(_, c, _), Plain(_, d, _)) => CodeTold(c, d, r, s);
    case (If(_, _, _, _, _), If(_, _, _, _, _)) => IfTold(x, y, r, s);
    case (Loop(c, b, _), Loop(d, e, _)) =>
      CodeTold(c, d, BlockTokens(b, r), BlockTokens(e, s));
      BlockTold(b, e, r, s);
    case (Try(_, _, _, _), Try(_, _, _, _)) => TryTold(x, y, r, s);
    case (FunctionDecl(_, b, _), FunctionDecl(_, e, _)) => BlockTold(b, e, r, s);
    case (Match(m), Match(n)) => MatchTold(m, n, r, s);
    case (TuiBlock(b, _), TuiBlock(e, _)) => BlockTold(b, e, r, s);
    case _ =>
  }

  lemma {:induction false} IfTold(x: Statement, y: Statement, r: Tokens, s: Tokens)
    requires x.If? && y.If? && x.span == y.span && BodyTokens(x, r) == BodyTokens(y, s)
    ensures x == y && r == s
    decreases x, 0, 0
  {
    var a, b := ElseTokens(x.elseBlock, r), ElseTokens(y.elseBlock, s);
    var c, d := ElseIfsTokens(x.elseIfs, a), ElseIfsTokens(y.elseIfs, b);
    CodeTold(x.condition, y.condition, BlockTokens(x.thenBlock, c), BlockTokens(y.thenBlock, d));
    BlockTold(x.thenBlock, y.thenBlock, c, d);
    ElseIfsTold(x.elseIfs, y.elseIfs, a, b);
    if x.elseBlock.Some? && y.elseBlock.Some? {
      BlockTold(x.elseBlock.value, y.elseBlock.value, r, s);
    }
  }

  lemma {:induction false} ElseIfsTold(x: seq<ElseIf>, y: seq<ElseIf>, r: Tokens, s: Tokens)
    requires ElseIfsTokens(x, r) == ElseIfsTokens(y, s)
    ensures x == y && r == s
    decreases x
  {
    if x != [] && y != [] {
      var a, b := ElseIfsTokens(x[1..], r), ElseIfsTokens(y[1..], s);
      CodeTold(x[0].condition, y[0].condition, BlockTokens(x[0].block, a), BlockTokens(y[0].block, b));
      BlockTold(x[0].block, y[0].block, a, b);
      ElseIfsTold(x[1..], y[1..], r, s);
      assert x == [x[0]] + x[1..] && y == [y[0]] + y[1..];
    }
  }

  lemma {:induction false} TryTold(x: Statement, y: Statement, r: Tokens, s: Tokens)
    requires x.Try? && y.Try? && x.span == y.span && BodyTokens(x, r) == BodyTokens(y, s)
    ensures x == y && r == s
    decreases x, 0, 0
  {
    var a, b := FinallyTokens(x.finallyBlock, r), FinallyTokens(y.finallyBlock, s);
    BlockTold(x.tryBlock, y.tryBlock, CatchesTokens(x.catches, a), CatchesTokens(y.catches, b));
    CatchesTold(x.catches, y.catches, a, b);
    if x.finallyBlock.Some? && y.finallyBlock.Some? {
      BlockTold(x.finallyBlock.value, y.finallyBlock.value, r, s);
    }
  }

  lemma {:induction false} CatchesTold(x: seq<Catch>, y: seq<Catch>, r: Tokens, s: Tokens)
    requires CatchesTokens(x, r) == CatchesTokens(y, s)
    ensures x == y && r == s
    decreases x
  {
    if x != [] && y != [] {
      CatchTold(x[0], y[0], CatchesTokens(x[1..], r), CatchesTokens(y[1..], s));
      CatchesTold(x[1..], y[1..], r, s);
      assert x == [x[0]] + x[1..] && y == [y[0]] + y[1..];
    }
  }

  lemma {:induction false} CatchTold(x: Catch, y: Catch, r: Tokens, s: Tokens)
    requires CatchTokens(x, r) == CatchTokens(y, s)
    ensures x == y && r == s
    decreases x
  {
    BlockTold(x.block, y.block, r, s);
  }

  lemma {:induction false} MatchTold(x: MatchExpr, y: MatchExpr, r: Tokens, s: Tokens)
    requires MatchTokens(x, r) == MatchTokens(y, s)
    ensures x == y && r == s
    decreases x
  {
    var a := Cons(Here(x.span.endLine), Cons(Keyed(CloseKey), r));
    var b := Cons(Here(y.span.endLine), Cons(Keyed(CloseKey), s));
    CodeTold(x.scrutinee, y.scrutinee,
             Cons(Keyed(OpenKey), CasesTokens(x.cases, a)), Cons(Keyed(OpenKey), CasesTokens(y.cases, b)));
    CasesTold(x.cases, y.cases, a, b);
  }

  lemma {:induction false} CasesTold(x: seq<MatchCase>, y: seq<MatchCase>, r: Tokens, s: Tokens)
    requires CasesTokens(x, r) == CasesTokens(y, s)
    ensures x == y && r == s
    decreases x
  {
    if x != [] && y != [] {
      CaseTold(x[0], y[0], CasesTokens(x[1..], r), CasesTokens(y[1..], s));
      CasesTold(x[1..], y[1..], r, s);
      assert x == [x[0]] + x[1..] && y == [y[0]] + y[1..];
    }
  }

  lemma {:induction false} CaseTold(x: MatchCase, y: MatchCase, r: Tokens, s: Tokens)
    requires CaseTokens(x, r) == CaseTokens(y, s)
    ensures x == y && r == s
    decreases x
  {
    var a, b := Cons(End(x.span.endLine), r), Cons(End(y.span.endLine), s);
    CodeTold(x.value, y.value, CaseBlockTokens(x.block, a), CaseBlockTokens(y.block, b));
    if x.block.Some? && y.block.Some? {
      BlockTold(x.block.value, y.block.value, a, b);
    }
  }

  lemma {:induction false} ItemsTold(x: seq<string>, y: seq<string>, c: seq<bool>, d: seq<bool>, i: nat,
                                     r: Tokens, s: Tokens)
    requires i <= |x| && i <= |y| && ItemsTokens(x, c, i, r) == ItemsTokens(y, d, i, s)
    ensures x[i..] == y[i..] && r == s
    decreases |x| - i
  {
    if i < |x| && i < |y| {
      ItemsTold(x, y, c, d, i + 1, r, s);
      assert x[i..] == [x[i]] + x[i + 1..] && y[i..] == [y[i]] + y[i + 1..];
    }
  }

  lemma {:induction false} CommasTold(x: seq<bool>, y: seq<bool>, r: Tokens, s: Tokens)
    requires CommasTokens(x, r) == CommasTokens(y, s)
    ensures x == y && r == s
  {
    if x != [] && y != [] {
      CommasTold(x[1..], y[1..], r, s);
      assert x == [x[0]] + x[1..] && y == [y[0]] + y[1..];
    }
  }

  lemma ExportTold(x: ExportBlock, y: ExportBlock, r: Tokens, s: Tokens)
    requires ExportTokens(x, r) == ExportTokens(y, s)
    ensures x == y && r == s
  {
    var a := Cons(Keyed(CloseKey), Cons(End(x.span.endLine), r));
    var b := Cons(Keyed(CloseKey), Cons(End(y.span.endLine), s));
    CommasTold(x.commas, y.commas,
               Cons(Keyed(ExportKey), Cons(Keyed(OpenKey), ItemsTokens(x.items, x.commas, 0, a))),
               Cons(Keyed(ExportKey), Cons(Keyed(OpenKey), ItemsTokens(y.items, y.commas, 0, b))));
    ItemsTold(x.items, y.items, x.commas, y.commas, 0, a, b);
    assert x.items[0..] == x.items && y.items[0..] == y.items;
  }

  lemma SectionTold(x: Section, y: Section, r: Tokens, s: Tokens)
    requires SectionTokens(x, r) == SectionTokens(y, s)
    ensures x == y && r == s
  {
    match (x, y)
    case (ExportSection(b), ExportSection(c)) => ExportTold(b, c, r, s);
    case (StatementSection(b), StatementSection(c)) => StatementTold(b, c, r, s);
    case _ =>
  }

  lemma {:induction false} SectionsTold(x: seq<Section>, y: seq<Section>, r: Tokens, s: Tokens)
    requires SectionsTokens(x, r) == SectionsTokens(y, s)
    ensures x == y && r == s
    decreases |x|
  {
    if x != [] && y != [] {
      SectionTold(x[0], y[0], SectionsTokens(x[1..], r), SectionsTokens(y[1..], s));
      SectionsTold(x[1..], y[1..], r, s);
      assert x == [x[0]] + x[1..] && y == [y[0]] + y[1..];
    }
  }

  function ImportsIn(ss: seq<Section>): seq<ImportStmt> {
    if ss == [] then [] else (if ss[0].ImportSection? then [ss[0].imp] else []) + ImportsIn(ss[1..])
  }

  function StatementsIn(ss: seq<Section>): seq<Statement> {
    if ss == [] then [] else (if ss[0].StatementSection? then [ss[0].stmt] else []) + StatementsIn(ss[1..])
  }

  function ExportsIn(ss: seq<Section>): seq<ExportBlock> {
    if ss == [] then [] else (if ss[0].ExportSection? then [ss[0].block] else []) + ExportsIn(ss[1..])
  }

  lemma {:induction false} ImportsOfConcat(a: seq<Section>, b: seq<Section>)
    ensures ImportsIn(a + b) == ImportsIn(a) + ImportsIn(b)
  {
    if a == [] {
      assert a + b == b;
    } else {
      assert (a + b)[0] == a[0] && (a + b)[1..] == a[1..] + b;
      ImportsOfConcat(a[1..], b);
    }
  }

  lemma {:induction false} StatementsOfConcat(a: seq<Section>, b: seq<Section>)
    ensures StatementsIn(a + b) == StatementsIn(a) + StatementsIn(b)
  {
    if a == [] {
      assert a + b == b;
    } else {
      assert (a + b)[0] == a[0] && (a + b)[1..] == a[1..] + b;
      StatementsOfConcat(a[1..], b);
    }
  }

  lemma {:induction false} ExportsOfConcat(a: seq<Section>, b: seq<Section>)
    ensures ExportsIn(a + b) == ExportsIn(a) + ExportsIn(b)
  {
    if a == [] {
      assert a + b == b;
    } else {
      assert (a + b)[0] == a[0] && (a + b)[1..] == a[1..] + b;
      ExportsOfConcat(a[1..], b);
    }
  }

  lemma {:induction false} PartsOfImports(imports: seq<ImportStmt>)
    ensures ImportsIn(ImportSections(imports)) == imports
    ensures StatementsIn(ImportSections(imports)) == [] && ExportsIn(ImportSections(imports)) == []
  {
    if imports != [] {
      PartsOfImports(imports[1..]);
      assert ImportSections(imports)[1..] == ImportSections(imports[1..]);
      assert imports == [imports[0]] + imports[1..];
    }
  }

  function ListOf(block: Option<ExportBlock>): seq<ExportBlock> {
    if block.Some? then [block.value] else []
  }

  lemma {:induction false} PartsOfStatements(ss: seq<Statement>, pending: Option<ExportBlock>)
    ensures StatementsIn(StatementSections(ss, pending)) == ss
    ensures ImportsIn(StatementSections(ss, pending)) == []
    ensures ExportsIn(StatementSections(ss, pending)) == ListOf(pending)
    decreases |ss| + (if pending.Some? then 1 else 0)
  {
    var all := StatementSections(ss, pending);
    if pending.Some? && (ss == [] || pending.value.span.startLine < ss[0].GetSpan().startLine) {
      assert all[0] == ExportSection(pending.value) && all[1..] == StatementSections(ss, None);
      PartsOfStatements(ss, None);
    } else if ss != [] {
      assert all[0] == StatementSection(ss[0]) && all[1..] == StatementSections(ss[1..], pending);
      PartsOfStatements(ss[1..], pending);
      assert ss == [ss[0]] + ss[1..];
    }
  }

  /** The sections are the imports, the statements and the export block, each once and each kind in its order. */
  lemma SectionsHoldAll(p: Program)
    ensures ImportsIn(Sections(p)) == p.imports && StatementsIn(Sections(p)) == p.statements
    ensures ExportsIn(Sections(p)) == ListOf(ExportOf(p))
  {
    var pending := if ExportFirst(p) then None else ExportOf(p);
    var rest := StatementSections(p.statements, pending);
    PartsOfImports(p.imports);
    PartsOfStatements(p.statements, pending);
    ImportsOfConcat(ImportSections(p.imports), rest);
    StatementsOfConcat(ImportSections(p.imports), rest);
    ExportsOfConcat(ImportSections(p.imports), rest);
    if ExportFirst(p) {
      var all := ImportSections(p.imports) + rest;
      assert ([ExportSection(ExportOf(p).value)] + all)[1..] == all;
    }
  }

  /** Programs with the same tokens are the same: nothing of a program is missing from them. */
  lemma TokensTellProgram(p: Program, q: Program)
    ensures ProgramTokens(p) == ProgramTokens(q) ==> p == q
  {
    if ProgramTokens(p) == ProgramTokens(q) {
      SectionsTold(Sections(p), Sections(q), FooterTokens(p), FooterTokens(q));
      SectionsHoldAll(p);
      SectionsHoldAll(q);
      SameExport(ExportOf(p), ExportOf(q));
    }
  }

  lemma SameExport(a: Option<ExportBlock>, b: Option<ExportBlock>)
    requires ListOf(a) == ListOf(b)
    ensures a == b
  {
    assert |ListOf(a)| == |ListOf(b)|;
    if a.Some? && b.Some? {
      assert ListOf(a)[0] == ListOf(b)[0];
    }
  }

  // --------------------------------------------------------------------------
  // The words are the texts of the tokens
  // --------------------------------------------------------------------------

  type Reading = (seq<Word>, Tokens) -> seq<Sign>

  /** What the words show of themselves: their texts, and where constructs begin and end. */
  datatype Sign = Seen(text: string) | Begins(line: nat) | Ends(line: nat)

  /**
   A reading of words that are written and of tokens still to come: a keyword or text
   among the tokens reads as its word does, and a tag or span as nothing.
   */
  ghost predicate Reads(show: Reading) {
    && (forall acc, key: Key, rest ::
          !key.OpenKey? ==> show(acc, Cons(Keyed(key), rest)) == show(PutWord(acc, Keyword(key)), rest))
    && (forall acc, fold, rest :: show(acc, Cons(Keyed(OpenKey), rest)) == show(OpenWord(acc, fold), rest))
    && (forall acc, text, rest :: show(acc, Cons(Txt(text), rest)) == show(PutWord(acc, text), rest))
    && (forall acc, tag, rest :: show(acc, Cons(Tagged(tag), rest)) == show(acc, rest))
    && (forall acc, span, rest :: show(acc, Cons(Spot(span), rest)) == show(acc, rest))
    && (forall acc, line, rest :: show(acc, Cons(Line(line), rest)) == show(acc, rest))
    && (forall acc, line, place: Place, rest ::
          show(MarkWord(acc, line, place), rest)
          == show(acc, Cons(if place.Ended? then End(line) else Here(line), rest)))
  }

  lemma PrintsHere(show: Reading, acc: seq<Word>, line: nat, place: Place, rest: Tokens)
    requires Reads(show) && !place.Ended?
    ensures show(acc, Cons(Here(line), rest)) == show(MarkWord(acc, line, place), rest)
  {
  }

  lemma PrintsEnd(show: Reading, acc: seq<Word>, line: nat, rest: Tokens)
    requires Reads(show)
    ensures show(acc, Cons(End(line), rest)) == show(MarkWord(acc, line, Ended), rest)
  {
  }

  lemma {:induction false} CodePrinted(show: Reading, acc: seq<Word>, code: Code, rest: Tokens)
    requires Reads(show)
    ensures show(acc, CodeTokens(code, rest)) == show(CodeWords(acc, code), rest)
    decreases code
  {
    if code != [] {
      FragmentPrinted(show, acc, code[0], CodeTokens(code[1..], rest));
      CodePrinted(show, FragmentWords(acc, code[0]), code[1..], rest);
    }
  }

  lemma {:induction false} FragmentPrinted(show: Reading, acc: seq<Word>, f: Fragment, rest: Tokens)
    requires Reads(show)
    ensures show(acc, FragmentTokens(f, rest)) == show(FragmentWords(acc, f), rest)
    decreases f
  {
    match f
    case Text(t) =>
    case MatchPart(m) =>
      MatchPrinted(show, acc, m, rest);
    case LambdaBody(b) =>
      BlockPrinted(show, acc, b, rest);
  }

  lemma OpenPrinted(show: Reading, acc: seq<Word>, fold: Fold, rest: Tokens)
    requires Reads(show)
    ensures show(acc, Cons(Keyed(OpenKey), rest)) == show(OpenWord(acc, fold), rest)
  {
  }

  /** The closing brace at its place. */
  lemma ClosePrinted(show: Reading, acc: seq<Word>, line: nat, place: Place, rest: Tokens)
    requires Reads(show) && !place.Ended?
    ensures show(acc, Cons(Here(line), Cons(Keyed(CloseKey), rest)))
            == show(PutWord(MarkWord(acc, line, place), "}"), rest)
  {
    PrintsHere(show, acc, line, place, Cons(Keyed(CloseKey), rest));
  }

  lemma {:induction false} BlockPrinted(show: Reading, acc: seq<Word>, b: Block, rest: Tokens)
    requires Reads(show)
    ensures show(acc, BlockTokens(b, rest)) == show(BlockWords(acc, b), rest)
    decreases b
  {
    var close := Cons(Here(b.span.endLine), Cons(Keyed(CloseKey), rest));
    StatementsPrinted(show, OpenWord(acc, FoldOf(b)), None, b.statements, MayInline(b), close);
    var inside := StatementsWords(OpenWord(acc, FoldOf(b)), None, b.statements, MayInline(b));
    ClosePrinted(show, inside, b.span.endLine, ClosingOf(b), rest);
  }

  lemma {:induction false} StatementsPrinted(show: Reading, acc: seq<Word>, prev: Option<Statement>, ss: seq<Statement>,
                                             inlined: bool, rest: Tokens)
    requires Reads(show)
    ensures show(acc, StatementsTokens(ss, rest)) == show(StatementsWords(acc, prev, ss, inlined), rest)
    decreases ss
  {
    if ss != [] {
      var place := PlaceOf(prev, ss[0], inlined);
      StatementPrinted(show, acc, ss[0], place, StatementsTokens(ss[1..], rest));
      StatementsPrinted(show, WholeStatementWords(acc, ss[0], place), Some(ss[0]), ss[1..], inlined, rest);
    }
  }

  lemma {:induction false} StatementPrinted(show: Reading, acc: seq<Word>, s: Statement, place: Place, rest: Tokens)
    requires Reads(show) && !place.Ended?
    ensures show(acc, StatementTokens(s, rest)) == show(WholeStatementWords(acc, s, place), rest)
    decreases s, 1
  {
    var span, end := s.GetSpan(), Cons(End(s.GetSpan().endLine), rest);
    PrintsHere(show, acc, span.startLine, place, Cons(Spot(span), BodyTokens(s, end)));
    BodyPrinted(show, MarkWord(acc, span.startLine, place), s, end);
    PrintsEnd(show, StatementWords(MarkWord(acc, span.startLine, place), s), span.endLine, rest);
  }

  lemma {:induction false} BodyPrinted(show: Reading, acc: seq<Word>, s: Statement, rest: Tokens)
    requires Reads(show)
    ensures show(acc, BodyTokens(s, rest)) == show(StatementWords(acc, s), rest)
    decreases s, 0
  {
    match s
    case Plain(kind, code, _) =>
      CodePrinted(show, acc, code, rest);
    case If(_, _, _, _, _) => IfPrinted(show, acc, s, rest);
    case Loop(head, b, _) =>
      CodePrinted(show, PutWord(acc, "@"), head, BlockTokens(b, rest));
      BlockPrinted(show, CodeWords(PutWord(acc, "@"), head), b, rest);
    case Try(_, _, _, _) => TryPrinted(show, acc, s, rest);
    case FunctionDecl(signature, b, _) =>
      BlockPrinted(show, PutWord(acc, signature), b, rest);
    case Match(m) =>
      MatchPrinted(show, acc, m, rest);
    case TuiBlock(b, _) =>
      BlockPrinted(show, PutWord(acc, ">>|"), b, rest);
  }

  lemma {:induction false} IfPrinted(show: Reading, acc: seq<Word>, s: Statement, rest: Tokens)
    requires Reads(show) && s.If?
    ensures show(acc, BodyTokens(s, rest)) == show(StatementWords(acc, s), rest)
    decreases s, 0, 0
  {
    var t, elifs, els := s.thenBlock, s.elseIfs, s.elseBlock;
    var branches := ElseIfsTokens(elifs, ElseTokens(els, rest));
    var head := CodeWords(PutWord(acc, "?"), s.condition);
    CodePrinted(show, PutWord(acc, "?"), s.condition, BlockTokens(t, branches));
    BlockPrinted(show, head, t, branches);
    ElseIfsPrinted(show, BlockWords(head, t), elifs, ElseTokens(els, rest));
    ElsePrinted(show, ElseIfsWords(BlockWords(head, t), elifs), els, rest);
  }

  lemma {:induction false} ElseIfsPrinted(show: Reading, acc: seq<Word>, es: seq<ElseIf>, rest: Tokens)
    requires Reads(show)
    ensures show(acc, ElseIfsTokens(es, rest)) == show(ElseIfsWords(acc, es), rest)
    decreases es
  {
    if es != [] {
      var b, more := es[0].block, ElseIfsTokens(es[1..], rest);
      var head := CodeWords(PutWord(acc, "_?"), es[0].condition);
      CodePrinted(show, PutWord(acc, "_?"), es[0].condition, BlockTokens(b, more));
      BlockPrinted(show, head, b, more);
      ElseIfsPrinted(show, BlockWords(head, b), es[1..], rest);
    }
  }

  lemma {:induction false} ElsePrinted(show: Reading, acc: seq<Word>, els: Option<Block>, rest: Tokens)
    requires Reads(show)
    ensures show(acc, ElseTokens(els, rest)) == show(ElseWords(acc, els), rest)
    decreases els
  {
    if els.Some? {
      BlockPrinted(show, PutWord(acc, "_"), els.value, rest);
    }
  }

  lemma {:induction false} TryPrinted(show: Reading, acc: seq<Word>, s: Statement, rest: Tokens)
    requires Reads(show) && s.Try?
    ensures show(acc, BodyTokens(s, rest)) == show(StatementWords(acc, s), rest)
    decreases s, 0, 0
  {
    var t, catches, fin := s.tryBlock, s.catches, s.finallyBlock;
    var clauses := CatchesTokens(catches, FinallyTokens(fin, rest));
    BlockPrinted(show, PutWord(acc, "!?"), t, clauses);
    CatchesPrinted(show, BlockWords(PutWord(acc, "!?"), t), catches, FinallyTokens(fin, rest));
    FinallyPrinted(show, CatchesWords(BlockWords(PutWord(acc, "!?"), t), catches), fin, rest);
  }

  lemma {:induction false} CatchesPrinted(show: Reading, acc: seq<Word>, cs: seq<Catch>, rest: Tokens)
    requires Reads(show)
    ensures show(acc, CatchesTokens(cs, rest)) == show(CatchesWords(acc, cs), rest)
    decreases cs
  {
    if cs != [] {
      CatchPrinted(show, acc, cs[0], CatchesTokens(cs[1..], rest));
      CatchesPrinted(show, CatchWords(acc, cs[0]), cs[1..], rest);
    }
  }

  lemma {:induction false} CatchPrinted(show: Reading, acc: seq<Word>, c: Catch, rest: Tokens)
    requires Reads(show)
    ensures show(acc, CatchTokens(c, rest)) == show(CatchWords(acc, c), rest)
    decreases c
  {
    var head, block := PutWord(acc, ":!"), BlockTokens(c.block, rest);
    if c.errorType.Some? {
      var name := c.errorType.value;
      BlockPrinted(show, PutWord(PutWord(head, "##"), name), c.block, rest);
    } else {
      BlockPrinted(show, head, c.block, rest);
    }
  }

  lemma {:induction false} FinallyPrinted(show: Reading, acc: seq<Word>, fin: Option<Block>, rest: Tokens)
    requires Reads(show)
    ensures show(acc, FinallyTokens(fin, rest)) == show(FinallyWords(acc, fin), rest)
    decreases fin
  {
    if fin.Some? {
      BlockPrinted(show, PutWord(acc, ":>"), fin.value, rest);
    }
  }

  lemma {:induction false} MatchPrinted(show: Reading, acc: seq<Word>, m: MatchExpr, rest: Tokens)
    requires Reads(show)
    ensures show(acc, MatchTokens(m, rest)) == show(MatchWords(acc, m), rest)
    decreases m
  {
    var close := Cons(Here(m.span.endLine), Cons(Keyed(CloseKey), rest));
    var arms := Cons(Keyed(OpenKey), CasesTokens(m.cases, close));
    var head := CodeWords(PutWord(acc, "??"), m.scrutinee);
    CodePrinted(show, PutWord(acc, "??"), m.scrutinee, arms);
    OpenPrinted(show, head, Never, CasesTokens(m.cases, close));
    CasesPrinted(show, OpenWord(head, Never), m.cases, close);
    ClosePrinted(show, CasesWords(OpenWord(head, Never), m.cases), m.span.endLine, Fresh, rest);
  }

  lemma {:induction false} CasesPrinted(show: Reading, acc: seq<Word>, cs: seq<MatchCase>, rest: Tokens)
    requires Reads(show)
    ensures show(acc, CasesTokens(cs, rest)) == show(CasesWords(acc, cs), rest)
    decreases cs
  {
    if cs != [] {
      CasePrinted(show, acc, cs[0], CasesTokens(cs[1..], rest));
      var arm := CaseWords(MarkWord(acc, cs[0].span.startLine, Fresh), cs[0]);
      CasesPrinted(show, MarkWord(arm, cs[0].span.endLine, Ended), cs[1..], rest);
    }
  }

  lemma {:induction false} CasePrinted(show: Reading, acc: seq<Word>, c: MatchCase, rest: Tokens)
    requires Reads(show)
    ensures show(acc, CaseTokens(c, rest))
            == show(MarkWord(CaseWords(MarkWord(acc, c.span.startLine, Fresh), c), c.span.endLine, Ended), rest)
    decreases c
  {
    var end := Cons(End(c.span.endLine), rest);
    var tail := CaseBlockTokens(c.block, end);
    var value := Cons(Txt(c.pattern), Cons(Keyed(ArrowKey), CodeTokens(c.value, tail)));
    var begun := MarkWord(acc, c.span.startLine, Fresh);
    var head := PutWord(PutWord(begun, c.pattern), "=>");
    PrintsHere(show, acc, c.span.startLine, Fresh, Cons(Spot(c.span), value));
    CodePrinted(show, head, c.value, tail);
    CaseBlockPrinted(show, CodeWords(head, c.value), c.block, end);
    PrintsEnd(show, CaseWords(begun, c), c.span.endLine, rest);
  }

  lemma {:induction false} CaseBlockPrinted(show: Reading, acc: seq<Word>, block: Option<Block>, rest: Tokens)
    requires Reads(show)
    ensures show(acc, CaseBlockTokens(block, rest)) == show(CaseBlockWords(acc, block), rest)
    decreases block
  {
    if block.Some? {
      BlockPrinted(show, acc, block.value, rest);
    }
  }

  lemma ImportPrinted(show: Reading, acc: seq<Word>, i: ImportStmt, rest: Tokens)
    requires Reads(show)
    ensures show(acc, ImportTokens(i, rest)) == show(ImportWords(acc, i), rest)
  {
    var alias := Cons(Keyed(ArrowKey), Cons(Txt(i.alias), Cons(End(i.span.endLine), rest)));
    var begun := MarkWord(acc, i.span.startLine, Fresh);
    var path := PutWord(PutWord(begun, "<#"), i.path);
    var all := Cons(Keyed(ImportKey), Cons(Txt(i.path), alias));
    PrintsHere(show, acc, i.span.startLine, Fresh, Cons(Spot(i.span), all));
    PrintsEnd(show, PutWord(PutWord(path, "=>"), i.alias), i.span.endLine, rest);
  }

  lemma CommaPrinted(show: Reading, acc: seq<Word>, comma: bool, rest: Tokens)
    requires Reads(show)
    ensures show(acc, Cons(if comma then Keyed(CommaKey) else Tagged(Absent), rest))
            == show(PutWord(acc, if comma then "," else ""), rest)
  {
    if comma {
      assert Keyword(CommaKey) == ",";
    } else {
      assert show(acc, Cons(Tagged(Absent), rest)) == show(acc, rest);
    }
  }

  lemma {:induction false} ItemsPrinted(show: Reading, acc: seq<Word>, items: seq<string>, commas: seq<bool>, i: nat,
                                        rest: Tokens)
    requires Reads(show)
    ensures show(acc, ItemsTokens(items, commas, i, rest)) == show(ItemsWords(acc, items, commas, i), rest)
    decreases |items| - i
  {
    if i < |items| {
      var comma, more := CommaAfter(commas, i), ItemsTokens(items, commas, i + 1, rest);
      var item := PutWord(acc, items[i]);
      var next := PutWord(item, if comma then "," else "");
      TextPrinted(show, acc, items[i], Cons(if comma then Keyed(CommaKey) else Tagged(Absent), more));
      CommaPrinted(show, item, comma, more);
      ItemsPrinted(show, next, items, commas, i + 1, rest);
    }
  }

  lemma TextPrinted(show: Reading, acc: seq<Word>, text: string, rest: Tokens)
    requires Reads(show)
    ensures show(acc, Cons(Txt(text), rest)) == show(PutWord(acc, text), rest)
  {
  }

  lemma {:induction false} CommasPrinted(show: Reading, acc: seq<Word>, commas: seq<bool>, rest: Tokens)
    requires Reads(show)
    ensures show(acc, CommasTokens(commas, rest)) == show(acc, rest)
  {
    if commas != [] {
      CommasPrinted(show, acc, commas[1..], rest);
    }
  }

  /** The keyword and the opening brace of an export block. */
  lemma ExportOpenPrinted(show: Reading, acc: seq<Word>, fold: Fold, rest: Tokens)
    requires Reads(show)
    ensures show(acc, Cons(Keyed(ExportKey), Cons(Keyed(OpenKey), rest)))
            == show(OpenWord(PutWord(acc, "#>"), fold), rest)
  {
    assert Keyword(ExportKey) == "#>" && Keyword(OpenKey) == "{";
  }

  /** Its closing brace, and its end. */
  lemma ExportEndPrinted(show: Reading, acc: seq<Word>, line: nat, rest: Tokens)
    requires Reads(show)
    ensures show(acc, Cons(Keyed(CloseKey), Cons(End(line), rest)))
            == show(MarkWord(PutWord(acc, "}"), line, Ended), rest)
  {
    assert Keyword(CloseKey) == "}";
    PrintsEnd(show, PutWord(acc, "}"), line, rest);
  }

  lemma ExportPrinted(show: Reading, acc: seq<Word>, b: ExportBlock, rest: Tokens)
    requires Reads(show)
    ensures show(acc, ExportTokens(b, rest)) == show(ExportWords(acc, b), rest)
  {
    var end := Cons(Keyed(CloseKey), Cons(End(b.span.endLine), rest));
    var items := ItemsTokens(b.items, b.commas, 0, end);
    var inside := Cons(Keyed(ExportKey), Cons(Keyed(OpenKey), items));
    var begun := MarkWord(acc, b.span.startLine, Fresh);
    var open := OpenWord(PutWord(begun, "#>"), FoldOfExport(b));
    var flags := CommasTokens(b.commas, inside);
    PrintsHere(show, acc, b.span.startLine, Fresh, Cons(Spot(b.span), flags));
    assert show(begun, Cons(Spot(b.span), flags)) == show(begun, flags);
    CommasPrinted(show, begun, b.commas, inside);
    ExportOpenPrinted(show, begun, FoldOfExport(b), items);
    ItemsPrinted(show, open, b.items, b.commas, 0, end);
    ExportEndPrinted(show, ItemsWords(open, b.items, b.commas, 0), b.span.endLine, rest);
  }

  lemma SectionPrinted(show: Reading, acc: seq<Word>, prev: Option<Statement>, s: Section, rest: Tokens)
    requires Reads(show)
    ensures show(acc, SectionTokens(s, rest)) == show(SectionWords(acc, prev, s), rest)
  {
    match s
    case ImportSection(i) => ImportPrinted(show, acc, i, rest);
    case ExportSection(b) => ExportPrinted(show, acc, b, rest);
    case StatementSection(stmt) => StatementPrinted(show, acc, stmt, PlaceOf(prev, stmt, false), rest);
  }

  lemma {:induction false} SectionsPrinted(show: Reading, acc: seq<Word>, prev: Option<Statement>, ss: seq<Section>,
                                           rest: Tokens)
    requires Reads(show)
    ensures show(acc, SectionsTokens(ss, rest)) == show(SectionsWords(acc, prev, ss), rest)
    decreases |ss|
  {
    if ss != [] {
      var last := if ss[0].StatementSection? then Some(ss[0].stmt) else prev;
      SectionPrinted(show, acc, prev, ss[0], SectionsTokens(ss[1..], rest));
      SectionsPrinted(show, SectionWords(acc, prev, ss[0]), last, ss[1..], rest);
    }
  }

  lemma FooterPrinted(show: Reading, acc: seq<Word>, p: Program)
    requires Reads(show)
    ensures show(acc, FooterTokens(p)) == show(FooterWords(acc, p), Nil)
  {
    if p.moduleDecl.Some? {
      ClosePrinted(show, acc, p.moduleDecl.value.span.endLine, Fresh, Nil);
    }
  }

  lemma HeaderPrinted(show: Reading, p: Program, rest: Tokens)
    requires Reads(show) && p.moduleDecl.Some?
    ensures var m := p.moduleDecl.value;
            var name := Cons(Keyed(ModuleKey), Cons(Txt(m.name), Cons(Keyed(OpenKey), rest)));
            show([], Cons(Here(m.span.startLine), name)) == show(HeaderWords(p), rest)
  {
    var m := p.moduleDecl.value;
    var name := Cons(Keyed(ModuleKey), Cons(Txt(m.name), Cons(Keyed(OpenKey), rest)));
    PrintsHere(show, [], m.span.startLine, Fresh, name);
  }

  lemma ProgramRead(show: Reading, p: Program)
    requires Reads(show)
    ensures show([], ProgramTokens(p)) == show(ProgramWords(p), Nil)
  {
    if p.moduleDecl.Some? {
      HeaderPrinted(show, p, SectionsTokens(Sections(p), FooterTokens(p)));
    }
    SectionsPrinted(show, HeaderWords(p), None, Sections(p), FooterTokens(p));
    FooterPrinted(show, SectionsWords(HeaderWords(p), None, Sections(p)), p);
  }

  function SignOf(w: Word): Sign {
    match w
    case Source(text) => Seen(text)
    case Opens(_) => Seen(Keyword(OpenKey))
    case At(line, place) => if place.Ended? then Ends(line) else Begins(line)
  }

  function Shown(ws: seq<Word>): seq<Sign> {
    if ws == [] then [] else Shown(ws[..|ws| - 1]) + [SignOf(ws[|ws| - 1])]
  }

  /** A text added, if it is not empty. */
  function Plus(acc: seq<Sign>, text: string): seq<Sign> {
    if text == "" then acc else acc + [Seen(text)]
  }

  /** What the tokens show, written out behind `acc`. */
  function Spelled(acc: seq<Sign>, ts: Tokens): seq<Sign>
    decreases ts
  {
    match ts
    case Nil => acc
    case Cons(Keyed(key), rest) => Spelled(Plus(acc, Keyword(key)), rest)
    case Cons(Txt(text), rest) => Spelled(Plus(acc, text), rest)
    case Cons(Here(line), rest) => Spelled(acc + [Begins(line)], rest)
    case Cons(End(line), rest) => Spelled(acc + [Ends(line)], rest)
    case Cons(_, rest) => Spelled(acc, rest)
  }

  function SpelledBehind(ws: seq<Word>, ts: Tokens): seq<Sign> {
    Spelled(Shown(ws), ts)
  }

  lemma ShownPut(acc: seq<Word>, text: string)
    ensures Shown(PutWord(acc, text)) == Plus(Shown(acc), text)
  {
    if text != "" {
      assert (acc + [Source(text)])[..|acc|] == acc;
    }
  }

  lemma ShownOpen(acc: seq<Word>, fold: Fold)
    ensures Shown(OpenWord(acc, fold)) == Plus(Shown(acc), Keyword(OpenKey))
  {
    assert (acc + [Opens(fold)])[..|acc|] == acc;
  }

  lemma ShownMark(acc: seq<Word>, line: nat, place: Place)
    ensures Shown(MarkWord(acc, line, place)) == Shown(acc) + [if place.Ended? then Ends(line) else Begins(line)]
  {
    assert (acc + [At(line, place)])[..|acc|] == acc;
  }

  lemma SpelledReads()
    ensures Reads(SpelledBehind)
  {
    forall acc, key, rest
      ensures SpelledBehind(acc, Cons(Keyed(key), rest)) == SpelledBehind(PutWord(acc, Keyword(key)), rest)
    {
      ShownPut(acc, Keyword(key));
    }
    forall acc, fold, rest
      ensures SpelledBehind(acc, Cons(Keyed(OpenKey), rest)) == SpelledBehind(OpenWord(acc, fold), rest)
    {
      ShownOpen(acc, fold);
    }
    forall acc, text, rest
      ensures SpelledBehind(acc, Cons(Txt(text), rest)) == SpelledBehind(PutWord(acc, text), rest)
    {
      ShownPut(acc, text);
    }
    forall acc, line, place: Place, rest
      ensures SpelledBehind(MarkWord(acc, line, place), rest)
              == SpelledBehind(acc, Cons(if place.Ended? then End(line) else Here(line), rest))
    {
      ShownMark(acc, line, place);
    }
  }

  /** The words of a program show the keywords and texts of its tokens, each once and in order, and nothing else. */
  lemma ProgramPrinted(p: Program)
    ensures Shown(ProgramWords(p)) == Spelled([], ProgramTokens(p))
  {
    SpelledReads();
    ProgramRead(SpelledBehind, p);
    assert SpelledBehind([], ProgramTokens(p)) == SpelledBehind(ProgramWords(p), Nil);
  }
}
