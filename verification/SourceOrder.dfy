/**
 The order in which the formatter prints the constructs of a file, against their
 order in the source.
 */
module SourceOrder {
  import opened Options
  import opened Syntax
  import opened Output
  import opened Layout

  // --------------------------------------------------------------------------
  // Where constructs stand in the source
  // --------------------------------------------------------------------------

  predicate StartsBefore(a: Span, b: Span) {
    a.startLine < b.startLine || (a.startLine == b.startLine && a.startCol < b.startCol)
  }

  /** `a` starts before `b` and ends by the line that `b` starts on. */
  predicate Before(a: Span, b: Span) {
    StartsBefore(a, b) && a.endLine <= b.startLine
  }

  /** The constructs do not overlap. */
  predicate Apart(a: Span, b: Span) {
    Before(a, b) || Before(b, a)
  }

  ghost predicate ImportsOrdered(imports: seq<ImportStmt>) {
    forall i, j :: 0 <= i < j < |imports| ==> Before(imports[i].span, imports[j].span)
  }

  ghost predicate StatementsOrdered(ss: seq<Statement>) {
    forall i, j :: 0 <= i < j < |ss| ==> Before(ss[i].GetSpan(), ss[j].GetSpan())
  }

  ghost predicate ExportApart(block: Option<ExportBlock>, imports: seq<ImportStmt>, ss: seq<Statement>) {
    block.Some? ==>
      && (forall i :: 0 <= i < |imports| ==> Apart(block.value.span, imports[i].span))
      && (forall i :: 0 <= i < |ss| ==> Apart(block.value.span, ss[i].GetSpan()))
  }

  /** The construct lies on lines of the module around it, if there is one. */
  predicate Inside(p: Program, span: Span) {
    && span.startLine <= span.endLine
    && (p.moduleDecl.Some? ==>
          p.moduleDecl.value.span.startLine <= span.startLine && span.endLine <= p.moduleDecl.value.span.endLine)
  }

  ghost predicate AllInside(p: Program) {
    && (forall i :: 0 <= i < |p.imports| ==> Inside(p, p.imports[i].span))
    && (forall i :: 0 <= i < |p.statements| ==> Inside(p, p.statements[i].GetSpan()))
    && (ExportOf(p).Some? ==> Inside(p, ExportOf(p).value.span))
  }

  /**
   The lines of a parsed program: imports in order, statements in order, nothing
   overlapping, and the module around all. Within a module, imports, statements and
   the export block may alternate.
   */
  ghost predicate ProgramInLines(p: Program) {
    && PartsInLines(p) && ImportsOrdered(p.imports) && StatementsOrdered(p.statements)
    && (forall i, j :: 0 <= i < |p.imports| && 0 <= j < |p.statements| ==>
          Apart(p.imports[i].span, p.statements[j].GetSpan()))
    && ExportApart(ExportOf(p), p.imports, p.statements)
    && (p.moduleDecl.Some? ==> p.moduleDecl.value.span.startLine <= p.moduleDecl.value.span.endLine)
    && AllInside(p)
  }

  ghost predicate InSourceOrder(sections: seq<Section>) {
    sections == [] ||
    (InSourceOrder(sections[1..]) && forall s :: s in sections[1..] ==> Before(sections[0].GetSpan(), s.GetSpan()))
  }

  // --------------------------------------------------------------------------
  // When the printed order is the source order
  // --------------------------------------------------------------------------

  /** The export block starts before the last import, but on no earlier line than the first. */
  predicate ExportAmongImports(p: Program) {
    ExportOf(p).Some? && p.imports != [] && !ExportFirst(p)
    && StartsBefore(ExportOf(p).value.span, p.imports[|p.imports| - 1].span)
  }

  /** An import stands behind a statement. */
  predicate ImportBehindStatement(p: Program) {
    p.imports != [] && p.statements != []
    && StartsBefore(p.statements[0].GetSpan(), p.imports[|p.imports| - 1].span)
  }

  predicate StartsBeside(block: Span, s: Span) {
    block.startLine == s.startLine && StartsBefore(block, s)
  }

  predicate AnyBeside(block: Option<ExportBlock>, ss: seq<Statement>) {
    block.Some? && exists i :: 0 <= i < |ss| && StartsBeside(block.value.span, ss[i].GetSpan())
  }

  /** A statement stands behind the export block on the line that the block starts on. */
  predicate ExportBesideStatement(p: Program) {
    !ExportFirst(p) && AnyBeside(ExportOf(p), p.statements)
  }

  lemma {:induction false} OrderOfConcat(a: seq<Section>, b: seq<Section>)
    ensures InSourceOrder(a + b) <==>
            InSourceOrder(a) && InSourceOrder(b) && forall s :: s in a ==> BeforeAll(s.GetSpan(), b)
  {
    if a == [] {
      assert a + b == b;
    } else {
      assert (a + b)[0] == a[0] && (a + b)[1..] == a[1..] + b;
      OrderOfConcat(a[1..], b);
      assert a == [a[0]] + a[1..];
    }
  }

  lemma {:induction false} ImportMembers(imports: seq<ImportStmt>)
    ensures forall i :: 0 <= i < |imports| ==> ImportSection(imports[i]) in ImportSections(imports)
    ensures forall s :: s in ImportSections(imports) ==> s.ImportSection? && s.imp in imports
  {
    if imports != [] {
      ImportMembers(imports[1..]);
      assert imports == [imports[0]] + imports[1..];
    }
  }

  lemma {:induction false} ImportsInOrder(imports: seq<ImportStmt>)
    requires ImportsOrdered(imports)
    ensures InSourceOrder(ImportSections(imports))
  {
    if imports != [] {
      ImportsInOrder(imports[1..]);
      ImportMembers(imports[1..]);
      assert ImportSections(imports)[1..] == ImportSections(imports[1..]);
      forall s | s in ImportSections(imports[1..]) ensures Before(imports[0].span, s.GetSpan()) {
        var i :| 0 <= i < |imports[1..]| && imports[1..][i] == s.imp;
        assert imports[1..][i] == imports[i + 1];
      }
    }
  }

  lemma {:induction false} StatementMembers(ss: seq<Statement>, pending: Option<ExportBlock>)
    ensures forall i :: 0 <= i < |ss| ==> StatementSection(ss[i]) in StatementSections(ss, pending)
    ensures pending.Some? ==> ExportSection(pending.value) in StatementSections(ss, pending)
    ensures forall s :: s in StatementSections(ss, pending) ==>
              if s.StatementSection? then s.stmt in ss else pending.Some? && s == ExportSection(pending.value)
    decreases |ss| + (if pending.Some? then 1 else 0)
  {
    if pending.Some? && (ss == [] || pending.value.span.startLine < ss[0].GetSpan().startLine) {
      StatementMembers(ss, None);
    } else if ss != [] {
      StatementMembers(ss[1..], pending);
      assert ss == [ss[0]] + ss[1..];
    }
  }

  /** Statements and the export block among them are in order unless one stands behind the block on its line. */
  lemma {:induction false} StatementsInOrder(ss: seq<Statement>, pending: Option<ExportBlock>)
    requires StatementsOrdered(ss) && ExportApart(pending, [], ss)
    ensures InSourceOrder(StatementSections(ss, pending)) <==> !AnyBeside(pending, ss)
    decreases |ss| + (if pending.Some? then 1 else 0)
  {
    var all := StatementSections(ss, pending);
    if pending.Some? && (ss == [] || pending.value.span.startLine < ss[0].GetSpan().startLine) {
      assert all[0] == ExportSection(pending.value) && all[1..] == StatementSections(ss, None);
      StatementsInOrder(ss, None);
      StatementMembers(ss, None);
      BlockBeforeAll(ss, pending.value);
    } else if ss != [] {
      assert all[0] == StatementSection(ss[0]) && all[1..] == StatementSections(ss[1..], pending);
      StatementsInOrder(ss[1..], pending);
      FirstBeforeRest(ss, pending);
      BesideFirstOrRest(ss, pending);
    }
  }

  lemma BlockBeforeAll(ss: seq<Statement>, block: ExportBlock)
    requires StatementsOrdered(ss) && ExportApart(Some(block), [], ss)
    requires ss == [] || block.span.startLine < ss[0].GetSpan().startLine
    ensures forall s :: s in ss ==> Before(block.span, s.GetSpan())
    ensures !AnyBeside(Some(block), ss)
  {
    forall i | 0 <= i < |ss| ensures Before(block.span, ss[i].GetSpan()) && !StartsBeside(block.span, ss[i].GetSpan()) {
      assert Apart(block.span, ss[i].GetSpan());
      assert i > 0 ==> Before(ss[0].GetSpan(), ss[i].GetSpan());
    }
  }

  /** What is printed behind the first statement follows it, unless it is an export block that stands before it. */
  lemma FirstBeforeRest(ss: seq<Statement>, pending: Option<ExportBlock>)
    requires StatementsOrdered(ss) && ExportApart(pending, [], ss) && ss != []
    requires pending.Some? ==> ss[0].GetSpan().startLine <= pending.value.span.startLine
    ensures (forall s :: s in StatementSections(ss[1..], pending) ==> Before(ss[0].GetSpan(), s.GetSpan()))
            <==> !(pending.Some? && StartsBeside(pending.value.span, ss[0].GetSpan()))
  {
    StatementMembers(ss[1..], pending);
    forall s | s in ss[1..] ensures Before(ss[0].GetSpan(), s.GetSpan()) {
      var i :| 0 <= i < |ss[1..]| && ss[1..][i] == s;
      assert ss[1..][i] == ss[i + 1];
    }
    if pending.Some? {
      assert Apart(pending.value.span, ss[0].GetSpan());
      assert ExportSection(pending.value) in StatementSections(ss[1..], pending);
    }
  }

  lemma BesideFirstOrRest(ss: seq<Statement>, pending: Option<ExportBlock>)
    requires ss != []
    ensures AnyBeside(pending, ss) <==>
            (pending.Some? && StartsBeside(pending.value.span, ss[0].GetSpan())) || AnyBeside(pending, ss[1..])
  {
    if pending.Some? {
      if i :| 0 <= i < |ss| && StartsBeside(pending.value.span, ss[i].GetSpan()) {
        assert i > 0 ==> ss[1..][i - 1] == ss[i];
      }
      if i :| 0 <= i < |ss[1..]| && StartsBeside(pending.value.span, ss[1..][i].GetSpan()) {
        assert ss[1..][i] == ss[i + 1];
      }
    }
  }

  ghost predicate BeforeAll(span: Span, rest: seq<Section>) {
    forall t :: t in rest ==> Before(span, t.GetSpan())
  }

  lemma LastBeforeRest(last: Span, ss: seq<Statement>, pending: Option<ExportBlock>)
    requires StatementsOrdered(ss)
    ensures BeforeAll(last, StatementSections(ss, pending))
            <==> (ss != [] ==> Before(last, ss[0].GetSpan())) && (pending.Some? ==> Before(last, pending.value.span))
  {
    StatementMembers(ss, pending);
    if (ss != [] ==> Before(last, ss[0].GetSpan())) && (pending.Some? ==> Before(last, pending.value.span)) {
      forall t | t in StatementSections(ss, pending) ensures Before(last, t.GetSpan()) {
        if t.StatementSection? {
          var i :| 0 <= i < |ss| && ss[i] == t.stmt;
          assert i > 0 ==> Before(ss[0].GetSpan(), ss[i].GetSpan());
        }
      }
    } else {
      assert ss != [] ==> StatementSection(ss[0]) in StatementSections(ss, pending);
    }
  }

  /** All imports come before what the last one comes before. */
  lemma ImportsBeforeRest(imports: seq<ImportStmt>, rest: seq<Section>)
    requires ImportsOrdered(imports) && imports != []
    ensures (forall s :: s in ImportSections(imports) ==> BeforeAll(s.GetSpan(), rest))
            <==> BeforeAll(imports[|imports| - 1].span, rest)
  {
    var last := imports[|imports| - 1].span;
    ImportMembers(imports);
    assert ImportSection(imports[|imports| - 1]) in ImportSections(imports);
    if BeforeAll(last, rest) {
      forall s | s in ImportSections(imports) ensures BeforeAll(s.GetSpan(), rest) {
        var i :| 0 <= i < |imports| && imports[i] == s.imp;
        if i < |imports| - 1 {
          EarlierBeforeAll(imports[i].span, last, rest);
        }
      }
    }
  }

  lemma EarlierBeforeAll(a: Span, b: Span, rest: seq<Section>)
    requires Before(a, b) && BeforeAll(b, rest)
    ensures BeforeAll(a, rest)
  {
  }

  /** Imports and what follows them are in order unless something stands before the last import. */
  lemma ImportsAndRest(imports: seq<ImportStmt>, ss: seq<Statement>, pending: Option<ExportBlock>)
    requires ImportsOrdered(imports) && StatementsOrdered(ss) && ExportApart(pending, imports, ss)
    requires forall i, j :: 0 <= i < |imports| && 0 <= j < |ss| ==> Apart(imports[i].span, ss[j].GetSpan())
    ensures InSourceOrder(ImportSections(imports) + StatementSections(ss, pending)) <==>
            && !AnyBeside(pending, ss)
            && (imports != [] && ss != [] ==> !StartsBefore(ss[0].GetSpan(), imports[|imports| - 1].span))
            && (imports != [] && pending.Some? ==> !StartsBefore(pending.value.span, imports[|imports| - 1].span))
  {
    ImportsInOrder(imports);
    StatementsInOrder(ss, pending);
    OrderOfConcat(ImportSections(imports), StatementSections(ss, pending));
    if imports != [] {
      var last := imports[|imports| - 1].span;
      ImportsBeforeRest(imports, StatementSections(ss, pending));
      LastBeforeRest(last, ss, pending);
      assert ss != [] ==> Apart(last, ss[0].GetSpan());
      assert pending.Some? ==> Apart(pending.value.span, last);
    }
  }

  /** An export block that starts on an earlier line than the imports is before all of them. */
  lemma ExportBeforeImports(imports: seq<ImportStmt>, rest: seq<Section>, block: ExportBlock)
    requires ImportsOrdered(imports) && ExportApart(Some(block), imports, [])
    requires imports != [] && block.span.startLine < imports[0].span.startLine
    requires InSourceOrder(ImportSections(imports) + rest)
    ensures InSourceOrder([ExportSection(block)] + (ImportSections(imports) + rest))
  {
    var first := ImportSection(imports[0]);
    var all := ImportSections(imports) + rest;
    assert all[0] == first;
    assert Apart(block.span, imports[0].span);
    forall s | s in all ensures Before(block.span, s.GetSpan()) {
      assert s == first || s in all[1..];
    }
    assert ([ExportSection(block)] + all)[1..] == all;
  }

  /** Exactly when a file is printed in the order of its source. */
  lemma PrintedInSourceOrder(p: Program)
    requires ProgramInLines(p)
    ensures InSourceOrder(Sections(p)) <==>
            !ExportAmongImports(p) && !ImportBehindStatement(p) && !ExportBesideStatement(p)
  {
    var pending := if ExportFirst(p) then None else ExportOf(p);
    var rest := StatementSections(p.statements, pending);
    ImportsAndRest(p.imports, p.statements, pending);
    if ExportFirst(p) {
      var block := ExportOf(p).value;
      OrderOfConcat([ExportSection(block)], ImportSections(p.imports) + rest);
      if InSourceOrder(ImportSections(p.imports) + rest) {
        ExportBeforeImports(p.imports, rest, block);
      }
    }
  }

  // --------------------------------------------------------------------------
  // A file of each family that is printed in another order
  // --------------------------------------------------------------------------

  /** A module on lines 1 to 9 with one constant. */
  function Sample(imports: seq<ImportStmt>, exported: Option<Span>, constant: Span): Program {
    var block := if exported.Some? then Some(ExportBlock(["A"], [], exported.value)) else None;
    Program(Some(ModuleDecl("m", block, Span(1, 1, 9))), imports, [Plain(ConstDecl, [Text("A := 1")], constant)])
  }

  function ImportAt(line: nat): ImportStmt {
    ImportStmt("./lib", "l", Span(line, 1, line))
  }

  /** `A := 1` and below it an import: the import is printed first. */
  lemma ImportBelowStatementMovesUp()
    ensures var p := Sample([ImportAt(3)], None, Span(2, 1, 2));
            && ProgramInLines(p) && !InSourceOrder(Sections(p))
            && ImportBehindStatement(p) && !ExportAmongImports(p) && !ExportBesideStatement(p)
  {
    var p := Sample([ImportAt(3)], None, Span(2, 1, 2));
    assert StatementInLines(p.statements[0]);
    PrintedInSourceOrder(p);
  }

  /** An export block between two imports is printed behind them. */
  lemma ExportBetweenImportsMovesDown()
    ensures var p := Sample([ImportAt(2), ImportAt(4)], Some(Span(3, 1, 3)), Span(5, 1, 5));
            && ProgramInLines(p) && !InSourceOrder(Sections(p))
            && !ImportBehindStatement(p) && ExportAmongImports(p) && !ExportBesideStatement(p)
  {
    var p := Sample([ImportAt(2), ImportAt(4)], Some(Span(3, 1, 3)), Span(5, 1, 5));
    BetweenImportsInLines(p);
    PrintedInSourceOrder(p);
  }

  lemma BetweenImportsInLines(p: Program)
    requires p == Sample([ImportAt(2), ImportAt(4)], Some(Span(3, 1, 3)), Span(5, 1, 5))
    ensures ProgramInLines(p)
  {
    assert StatementInLines(p.statements[0]);
  }

  /** `#> { A }  A := 1` on one line: the constant is printed first. */
  lemma ExportBesideStatementMovesDown()
    ensures var p := Sample([], Some(Span(2, 1, 2)), Span(2, 11, 2));
            && ProgramInLines(p) && !InSourceOrder(Sections(p))
            && !ImportBehindStatement(p) && !ExportAmongImports(p) && ExportBesideStatement(p)
  {
    var p := Sample([], Some(Span(2, 1, 2)), Span(2, 11, 2));
    assert StatementInLines(p.statements[0]);
    assert StartsBeside(ExportOf(p).value.span, p.statements[0].GetSpan());
    PrintedInSourceOrder(p);
  }

  // --------------------------------------------------------------------------
  // In source order, the places in the text ascend
  // --------------------------------------------------------------------------

  /** The places in `ws` ascend and reach no further than `line`. */
  predicate UpTo(ws: seq<Word>, line: nat) {
    Ascends(ws) && Reach(ws) <= line
  }

  lemma PutUpTo(acc: seq<Word>, text: string, line: nat)
    requires UpTo(acc, line)
    ensures UpTo(PutWord(acc, text), line)
  {
    ReachSnoc(acc, Source(text));
  }

  lemma OpenUpTo(acc: seq<Word>, fold: Fold, line: nat)
    requires UpTo(acc, line)
    ensures UpTo(OpenWord(acc, fold), line)
  {
    ReachSnoc(acc, Opens(fold));
  }

  lemma MarkUpTo(acc: seq<Word>, line: nat, place: Place)
    requires UpTo(acc, line)
    ensures UpTo(MarkWord(acc, line, place), line)
  {
    ReachSnoc(acc, At(line, place));
  }

  lemma {:induction false} CodeUpTo(acc: seq<Word>, code: Code, lo: nat, hi: nat)
    requires UpTo(acc, lo) && InLines(code, lo, hi)
    ensures UpTo(CodeWords(acc, code), hi)
    decreases code
  {
    if code != [] {
      FragmentUpTo(acc, code[0], lo);
      CodeUpTo(FragmentWords(acc, code[0]), code[1..], FragmentEnd(code[0], lo), hi);
    }
  }

  lemma {:induction false} FragmentUpTo(acc: seq<Word>, f: Fragment, lo: nat)
    requires UpTo(acc, lo) && FragmentInLines(f, lo)
    ensures UpTo(FragmentWords(acc, f), FragmentEnd(f, lo))
    decreases f
  {
    match f
    case Text(t) => PutUpTo(acc, t, lo);
    case MatchPart(m) => MatchUpTo(acc, m);
    case LambdaBody(b) => BlockUpTo(acc, b);
  }

  lemma {:induction false} BlockUpTo(acc: seq<Word>, b: Block)
    requires UpTo(acc, b.span.startLine) && BlockInLines(b)
    ensures UpTo(BlockWords(acc, b), b.span.endLine)
    decreases b
  {
    var inside := StatementsWords(OpenWord(acc, FoldOf(b)), None, b.statements, MayInline(b));
    OpenUpTo(acc, FoldOf(b), b.span.startLine);
    StatementsUpTo(OpenWord(acc, FoldOf(b)), None, b.statements, MayInline(b), b.span.startLine, b.span.endLine);
    MarkUpTo(inside, b.span.endLine, ClosingOf(b));
    PutUpTo(MarkWord(inside, b.span.endLine, ClosingOf(b)), "}", b.span.endLine);
  }

  lemma {:induction false} StatementsUpTo(acc: seq<Word>, prev: Option<Statement>, ss: seq<Statement>, inlined: bool,
                                          lo: nat, hi: nat)
    requires UpTo(acc, lo) && StatementsInLines(ss, lo, hi)
    ensures UpTo(StatementsWords(acc, prev, ss, inlined), hi)
    decreases ss
  {
    if ss != [] {
      WholeStatementUpTo(acc, ss[0], PlaceOf(prev, ss[0], inlined));
      var whole := WholeStatementWords(acc, ss[0], PlaceOf(prev, ss[0], inlined));
      StatementsUpTo(whole, Some(ss[0]), ss[1..], inlined, ss[0].GetSpan().endLine, hi);
    }
  }

  lemma {:induction false} WholeStatementUpTo(acc: seq<Word>, s: Statement, place: Place)
    requires UpTo(acc, s.GetSpan().startLine) && StatementInLines(s)
    ensures UpTo(WholeStatementWords(acc, s, place), s.GetSpan().endLine)
    decreases s, 1
  {
    var begun := MarkWord(acc, s.GetSpan().startLine, place);
    MarkUpTo(acc, s.GetSpan().startLine, place);
    StatementUpTo(begun, s);
    MarkUpTo(StatementWords(begun, s), s.GetSpan().endLine, Ended);
  }

  lemma {:induction false} StatementUpTo(acc: seq<Word>, s: Statement)
    requires UpTo(acc, s.GetSpan().startLine) && StatementInLines(s)
    ensures UpTo(StatementWords(acc, s), s.GetSpan().endLine)
    decreases s, 0
  {
    var lo, hi := s.GetSpan().startLine, s.GetSpan().endLine;
    match s
    case Plain(_, code, _) => CodeUpTo(acc, code, lo, hi);
    case If(_, _, _, _, _) => IfUpTo(acc, s);
    case Loop(head, b, _) =>
      PutUpTo(acc, "@", lo);
      CodeUpTo(PutWord(acc, "@"), head, lo, b.span.startLine);
      BlockUpTo(CodeWords(PutWord(acc, "@"), head), b);
    case Try(_, _, _, _) => TryUpTo(acc, s);
    case FunctionDecl(signature, b, _) =>
      PutUpTo(acc, signature, b.span.startLine);
      BlockUpTo(PutWord(acc, signature), b);
    case Match(m) => MatchUpTo(acc, m);
    case TuiBlock(b, _) =>
      PutUpTo(acc, ">>|", b.span.startLine);
      BlockUpTo(PutWord(acc, ">>|"), b);
  }

  lemma {:induction false} IfUpTo(acc: seq<Word>, s: Statement)
    requires s.If? && UpTo(acc, s.span.startLine) && StatementInLines(s)
    ensures UpTo(StatementWords(acc, s), s.span.endLine)
    decreases s, 0, 0
  {
    var t := s.thenBlock;
    var last := if s.elseBlock.Some? then s.elseBlock.value.span.startLine else s.span.endLine;
    PutUpTo(acc, "?", s.span.startLine);
    CodeUpTo(PutWord(acc, "?"), s.condition, s.span.startLine, t.span.startLine);
    var head := CodeWords(PutWord(acc, "?"), s.condition);
    BlockUpTo(head, t);
    ElseIfsUpTo(BlockWords(head, t), s.elseIfs, t.span.endLine, last);
    if s.elseBlock.Some? {
      var before := ElseIfsWords(BlockWords(head, t), s.elseIfs);
      PutUpTo(before, "_", last);
      BlockUpTo(PutWord(before, "_"), s.elseBlock.value);
    }
  }

  lemma {:induction false} ElseIfsUpTo(acc: seq<Word>, es: seq<ElseIf>, lo: nat, hi: nat)
    requires UpTo(acc, lo) && ElseIfsInLines(es, lo, hi)
    ensures UpTo(ElseIfsWords(acc, es), hi)
    decreases es
  {
    if es != [] {
      var b := es[0].block;
      PutUpTo(acc, "_?", lo);
      CodeUpTo(PutWord(acc, "_?"), es[0].condition, lo, b.span.startLine);
      BlockUpTo(CodeWords(PutWord(acc, "_?"), es[0].condition), b);
      ElseIfsUpTo(BlockWords(CodeWords(PutWord(acc, "_?"), es[0].condition), b), es[1..], b.span.endLine, hi);
    }
  }

  lemma {:induction false} TryUpTo(acc: seq<Word>, s: Statement)
    requires s.Try? && UpTo(acc, s.span.startLine) && StatementInLines(s)
    ensures UpTo(StatementWords(acc, s), s.span.endLine)
    decreases s, 0, 0
  {
    var t := s.tryBlock;
    var last := if s.finallyBlock.Some? then s.finallyBlock.value.span.startLine else s.span.endLine;
    PutUpTo(acc, "!?", t.span.startLine);
    BlockUpTo(PutWord(acc, "!?"), t);
    CatchesUpTo(BlockWords(PutWord(acc, "!?"), t), s.catches, t.span.endLine, last);
    if s.finallyBlock.Some? {
      var before := CatchesWords(BlockWords(PutWord(acc, "!?"), t), s.catches);
      PutUpTo(before, ":>", last);
      BlockUpTo(PutWord(before, ":>"), s.finallyBlock.value);
    }
  }

  lemma {:induction false} CatchesUpTo(acc: seq<Word>, cs: seq<Catch>, lo: nat, hi: nat)
    requires UpTo(acc, lo) && CatchesInLines(cs, lo, hi)
    ensures UpTo(CatchesWords(acc, cs), hi)
    decreases cs
  {
    if cs != [] {
      CatchUpTo(acc, cs[0], lo);
      CatchesUpTo(CatchWords(acc, cs[0]), cs[1..], cs[0].block.span.endLine, hi);
    }
  }

  lemma {:induction false} CatchUpTo(acc: seq<Word>, c: Catch, lo: nat)
    requires UpTo(acc, lo) && CatchInLines(c, lo)
    ensures UpTo(CatchWords(acc, c), c.block.span.endLine)
    decreases c
  {
    PutUpTo(acc, ":!", lo);
    var head := PutWord(acc, ":!");
    if c.errorType.Some? {
      PutUpTo(head, "##", lo);
      PutUpTo(PutWord(head, "##"), c.errorType.value, lo);
      BlockUpTo(PutWord(PutWord(head, "##"), c.errorType.value), c.block);
    } else {
      BlockUpTo(head, c.block);
    }
  }

  lemma {:induction false} MatchUpTo(acc: seq<Word>, m: MatchExpr)
    requires UpTo(acc, m.span.startLine) && MatchInLines(m)
    ensures UpTo(MatchWords(acc, m), m.span.endLine)
    decreases m
  {
    PutUpTo(acc, "??", m.span.startLine);
    CodeUpTo(PutWord(acc, "??"), m.scrutinee, m.span.startLine, m.scrutineeEnd);
    var head := CodeWords(PutWord(acc, "??"), m.scrutinee);
    OpenUpTo(head, Never, m.scrutineeEnd);
    CasesUpTo(OpenWord(head, Never), m.cases, m.scrutineeEnd, m.span.endLine);
    var arms := CasesWords(OpenWord(head, Never), m.cases);
    MarkUpTo(arms, m.span.endLine, Fresh);
    PutUpTo(MarkWord(arms, m.span.endLine, Fresh), "}", m.span.endLine);
  }

  lemma {:induction false} CasesUpTo(acc: seq<Word>, cs: seq<MatchCase>, lo: nat, hi: nat)
    requires UpTo(acc, lo) && CasesInLines(cs, lo, hi)
    ensures UpTo(CasesWords(acc, cs), hi)
    decreases cs
  {
    if cs != [] {
      var begun := MarkWord(acc, cs[0].span.startLine, Fresh);
      MarkUpTo(acc, cs[0].span.startLine, Fresh);
      CaseUpTo(begun, cs[0]);
      MarkUpTo(CaseWords(begun, cs[0]), cs[0].span.endLine, Ended);
      CasesUpTo(MarkWord(CaseWords(begun, cs[0]), cs[0].span.endLine, Ended), cs[1..], cs[0].span.endLine, hi);
    }
  }

  lemma {:induction false} CaseUpTo(acc: seq<Word>, c: MatchCase)
    requires UpTo(acc, c.span.startLine) && CaseInLines(c)
    ensures UpTo(CaseWords(acc, c), c.span.endLine)
    decreases c
  {
    var last := if c.block.Some? then c.block.value.span.startLine else c.span.endLine;
    PutUpTo(acc, c.pattern, c.span.startLine);
    PutUpTo(PutWord(acc, c.pattern), "=>", c.span.startLine);
    var head := PutWord(PutWord(acc, c.pattern), "=>");
    CodeUpTo(head, c.value, c.span.startLine, last);
    if c.block.Some? {
      BlockUpTo(CodeWords(head, c.value), c.block.value);
    }
  }

  lemma ImportUpTo(acc: seq<Word>, i: ImportStmt)
    requires UpTo(acc, i.span.startLine) && i.span.startLine <= i.span.endLine
    ensures UpTo(ImportWords(acc, i), i.span.endLine)
  {
    var line := i.span.startLine;
    var begun := MarkWord(acc, line, Fresh);
    MarkUpTo(acc, line, Fresh);
    PutUpTo(begun, "<#", line);
    PutUpTo(PutWord(begun, "<#"), i.path, line);
    PutUpTo(PutWord(PutWord(begun, "<#"), i.path), "=>", line);
    var path := PutWord(PutWord(PutWord(begun, "<#"), i.path), "=>");
    PutUpTo(path, i.alias, line);
    MarkUpTo(PutWord(path, i.alias), i.span.endLine, Ended);
  }

  lemma {:induction false} ItemsUpTo(acc: seq<Word>, items: seq<string>, commas: seq<bool>, i: nat, line: nat)
    requires UpTo(acc, line)
    ensures UpTo(ItemsWords(acc, items, commas, i), line)
    decreases |items| - i
  {
    if i < |items| {
      var comma := if CommaAfter(commas, i) then "," else "";
      PutUpTo(acc, items[i], line);
      PutUpTo(PutWord(acc, items[i]), comma, line);
      ItemsUpTo(PutWord(PutWord(acc, items[i]), comma), items, commas, i + 1, line);
    }
  }

  lemma ExportUpTo(acc: seq<Word>, b: ExportBlock)
    requires UpTo(acc, b.span.startLine) && b.span.startLine <= b.span.endLine
    ensures UpTo(ExportWords(acc, b), b.span.endLine)
  {
    var line := b.span.startLine;
    var begun := MarkWord(acc, line, Fresh);
    MarkUpTo(acc, line, Fresh);
    PutUpTo(begun, "#>", line);
    OpenUpTo(PutWord(begun, "#>"), FoldOfExport(b), line);
    var open := OpenWord(PutWord(begun, "#>"), FoldOfExport(b));
    ItemsUpTo(open, b.items, b.commas, 0, line);
    PutUpTo(ItemsWords(open, b.items, b.commas, 0), "}", line);
    MarkUpTo(PutWord(ItemsWords(open, b.items, b.commas, 0), "}"), b.span.endLine, Ended);
  }

  predicate SectionInLines(s: Section) {
    s.GetSpan().startLine <= s.GetSpan().endLine && (s.StatementSection? ==> StatementInLines(s.stmt))
  }

  lemma SectionUpTo(acc: seq<Word>, prev: Option<Statement>, s: Section)
    requires UpTo(acc, s.GetSpan().startLine) && SectionInLines(s)
    ensures UpTo(SectionWords(acc, prev, s), s.GetSpan().endLine)
  {
    match s
    case ImportSection(i) => ImportUpTo(acc, i);
    case ExportSection(b) => ExportUpTo(acc, b);
    case StatementSection(stmt) => WholeStatementUpTo(acc, stmt, PlaceOf(prev, stmt, false));
  }

  lemma {:induction false} SectionsUpTo(acc: seq<Word>, prev: Option<Statement>, sections: seq<Section>,
                                        lo: nat, hi: nat)
    requires UpTo(acc, lo) && lo <= hi && InSourceOrder(sections)
    requires forall s :: s in sections ==> SectionInLines(s) && lo <= s.GetSpan().startLine && s.GetSpan().endLine <= hi
    ensures UpTo(SectionsWords(acc, prev, sections), hi)
    decreases |sections|
  {
    if sections != [] {
      var s := sections[0];
      var last := if s.StatementSection? then Some(s.stmt) else prev;
      SectionUpTo(acc, prev, s);
      SectionsUpTo(SectionWords(acc, prev, s), last, sections[1..], s.GetSpan().endLine, hi);
    }
  }

  lemma SectionMembers(p: Program)
    ensures forall s :: s in Sections(p) ==>
              match s
              case ImportSection(i) => i in p.imports
              case ExportSection(b) => ExportOf(p) == Some(b)
              case StatementSection(stmt) => stmt in p.statements
  {
    ImportMembers(p.imports);
    StatementMembers(p.statements, if ExportFirst(p) then None else ExportOf(p));
  }

  lemma {:induction false} FurthestLine(sections: seq<Section>) returns (hi: nat)
    ensures forall s :: s in sections ==> s.GetSpan().endLine <= hi
  {
    hi := 0;
    if sections != [] {
      hi := FurthestLine(sections[1..]);
      hi := Max(hi, sections[0].GetSpan().endLine);
      assert sections == [sections[0]] + sections[1..];
    }
  }

  lemma SectionsInLines(p: Program)
    requires ProgramInLines(p)
    ensures forall s :: s in Sections(p) ==> SectionInLines(s) && Inside(p, s.GetSpan())
  {
    SectionMembers(p);
    forall s | s in Sections(p) ensures SectionInLines(s) && Inside(p, s.GetSpan()) {
      match s
      case ImportSection(imp) =>
        var i :| 0 <= i < |p.imports| && p.imports[i] == imp;
      case ExportSection(_) =>
      case StatementSection(stmt) =>
        var i :| 0 <= i < |p.statements| && p.statements[i] == stmt;
    }
  }

  /** Printed in source order, no place in a file's text lies before an earlier one. */
  lemma PlacesAscend(p: Program)
    requires ProgramInLines(p) && InSourceOrder(Sections(p))
    ensures Ascends(ProgramWords(p))
  {
    SectionsInLines(p);
    if p.moduleDecl.Some? {
      ModulePlacesAscend(p);
    } else {
      var hi := FurthestLine(Sections(p));
      SectionsUpTo([], None, Sections(p), 0, hi);
    }
  }

  lemma ModulePlacesAscend(p: Program)
    requires ProgramInLines(p) && InSourceOrder(Sections(p)) && p.moduleDecl.Some?
    requires forall s :: s in Sections(p) ==> SectionInLines(s) && Inside(p, s.GetSpan())
    ensures Ascends(ProgramWords(p))
  {
    var m := p.moduleDecl.value;
    var line := m.span.startLine;
    var begun := MarkWord([], line, Fresh);
    MarkUpTo([], line, Fresh);
    PutUpTo(begun, "#", line);
    PutUpTo(PutWord(begun, "#"), m.name, line);
    OpenUpTo(PutWord(PutWord(begun, "#"), m.name), Never, line);
    SectionsUpTo(HeaderWords(p), None, Sections(p), line, m.span.endLine);
    var all := SectionsWords(HeaderWords(p), None, Sections(p));
    MarkUpTo(all, m.span.endLine, Fresh);
    PutUpTo(MarkWord(all, m.span.endLine, Fresh), "}", m.span.endLine);
  }
}
