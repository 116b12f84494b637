/**
 What the formatter must keep: the text of a statement tree in order, with the
 places at which comments may stand, and the order in which the parts of a parsed
 construct cover the lines of its source.
 */
module Layout {
  import opened Options
  import opened Syntax
  import opened Output

  // --------------------------------------------------------------------------
  // Which statements may share a line
  // --------------------------------------------------------------------------

  /** Outputs chained on one source line stay on one line. */
  predicate JoinsPreviousOutput(prev: Option<Statement>, current: Statement) {
    && prev.Some? && prev.value.IsOutput() && current.IsOutput()
    && prev.value.GetSpan().endLine == current.GetSpan().startLine
  }

  predicate IsSimpleStatement(s: Statement) {
    s.Plain? &&
    match s.kind
    case Output | Assignment | ConstDecl | DestructureAssign | Break | Continue | Return | Expression => true
    case _ => false
  }

  predicate MayInline(b: Block) {
    |b.statements| == 1 && IsSimpleStatement(b.statements[0])
  }

  function PlaceOf(prev: Option<Statement>, s: Statement, inlined: bool): Place {
    if inlined || (s.IsNewline() && prev.Some? && !prev.value.IsNewline()) || JoinsPreviousOutput(prev, s) then MayJoin
    else Fresh
  }

  /** Before its closing brace a block has printed what starts inside it. */
  function ClosingOf(b: Block): Place {
    if MayInline(b) then Closes(b.span.startLine) else Fresh
  }

  /** A block on one line holds one simple statement and no comment. */
  function FoldOf(b: Block): Fold {
    if MayInline(b) then Quiet(b.span.startLine, b.span.endLine) else Never
  }

  /** An export block stays on one line if it was on one. */
  function FoldOfExport(b: ExportBlock): Fold {
    if b.span.startLine == b.span.endLine then Always else Never
  }

  // --------------------------------------------------------------------------
  // The program text of a tree, added to what was written before it
  // --------------------------------------------------------------------------

  function PutWord(acc: seq<Word>, text: string): seq<Word> {
    if text == "" then acc else acc + [Source(text)]
  }

  function OpenWord(acc: seq<Word>, fold: Fold): seq<Word> {
    acc + [Opens(fold)]
  }

  function MarkWord(acc: seq<Word>, line: nat, place: Place): seq<Word> {
    acc + [At(line, place)]
  }

  function CodeWords(acc: seq<Word>, code: Code): seq<Word>
    decreases code
  {
    if code == [] then acc else CodeWords(FragmentWords(acc, code[0]), code[1..])
  }

  function FragmentWords(acc: seq<Word>, f: Fragment): seq<Word>
    decreases f
  {
    match f
    case Text(t) => PutWord(acc, t)
    case MatchPart(m) => MatchWords(acc, m)
    case LambdaBody(b) => BlockWords(acc, b)
  }

  function BlockWords(acc: seq<Word>, b: Block): seq<Word>
    decreases b
  {
    var inside := StatementsWords(OpenWord(acc, FoldOf(b)), None, b.statements, MayInline(b));
    PutWord(MarkWord(inside, b.span.endLine, ClosingOf(b)), "}")
  }

  /** `prev` is the statement before; `inlined` tells that the list may stand on its block's line. */
  function StatementsWords(acc: seq<Word>, prev: Option<Statement>, ss: seq<Statement>, inlined: bool): seq<Word>
    decreases ss
  {
    if ss == [] then acc
    else
      StatementsWords(WholeStatementWords(acc, ss[0], PlaceOf(prev, ss[0], inlined)), Some(ss[0]), ss[1..], inlined)
  }

  /** A statement with the places where it begins and ends. */
  function WholeStatementWords(acc: seq<Word>, s: Statement, place: Place): seq<Word>
    decreases s, 1
  {
    MarkWord(StatementWords(MarkWord(acc, s.GetSpan().startLine, place), s), s.GetSpan().endLine, Ended)
  }

  function StatementWords(acc: seq<Word>, s: Statement): seq<Word>
    decreases s, 0
  {
    match s
    case Plain(_, code, _) => CodeWords(acc, code)
    case If(cond, t, elifs, els, _) =>
      ElseWords(ElseIfsWords(BlockWords(CodeWords(PutWord(acc, "?"), cond), t), elifs), els)
    case Loop(head, b, _) => BlockWords(CodeWords(PutWord(acc, "@"), head), b)
    case Try(t, catches, fin, _) => FinallyWords(CatchesWords(BlockWords(PutWord(acc, "!?"), t), catches), fin)
    case FunctionDecl(signature, b, _) => BlockWords(PutWord(acc, signature), b)
    case Match(m) => MatchWords(acc, m)
    case TuiBlock(b, _) => BlockWords(PutWord(acc, ">>|"), b)
  }

  function ElseIfsWords(acc: seq<Word>, es: seq<ElseIf>): seq<Word>
    decreases es
  {
    if es == [] then acc
    else ElseIfsWords(BlockWords(CodeWords(PutWord(acc, "_?"), es[0].condition), es[0].block), es[1..])
  }

  function ElseWords(acc: seq<Word>, els: Option<Block>): seq<Word>
    decreases els
  {
    if els.None? then acc else BlockWords(PutWord(acc, "_"), els.value)
  }

  function CatchWords(acc: seq<Word>, c: Catch): seq<Word>
    decreases c
  {
    BlockWords(if c.errorType.Some? then PutWord(PutWord(PutWord(acc, ":!"), "##"), c.errorType.value)
               else PutWord(acc, ":!"), c.block)
  }

  function CatchesWords(acc: seq<Word>, cs: seq<Catch>): seq<Word>
    decreases cs
  {
    if cs == [] then acc else CatchesWords(CatchWords(acc, cs[0]), cs[1..])
  }

  function FinallyWords(acc: seq<Word>, fin: Option<Block>): seq<Word>
    decreases fin
  {
    if fin.None? then acc else BlockWords(PutWord(acc, ":>"), fin.value)
  }

  function MatchWords(acc: seq<Word>, m: MatchExpr): seq<Word>
    decreases m, 1
  {
    ArmsWords(CodeWords(PutWord(acc, "??"), m.scrutinee), m)
  }

  function ArmsWords(acc: seq<Word>, m: MatchExpr): seq<Word>
    decreases m, 0
  {
    PutWord(MarkWord(CasesWords(OpenWord(acc, Never), m.cases), m.span.endLine, Fresh), "}")
  }

  function CasesWords(acc: seq<Word>, cs: seq<MatchCase>): seq<Word>
    decreases cs
  {
    if cs == [] then acc
    else
      var arm := CaseWords(MarkWord(acc, cs[0].span.startLine, Fresh), cs[0]);
      CasesWords(MarkWord(arm, cs[0].span.endLine, Ended), cs[1..])
  }

  function CaseWords(acc: seq<Word>, c: MatchCase): seq<Word>
    decreases c
  {
    CaseBlockWords(CodeWords(PutWord(PutWord(acc, c.pattern), "=>"), c.value), c.block)
  }

  function CaseBlockWords(acc: seq<Word>, block: Option<Block>): seq<Word>
    decreases block
  {
    if block.None? then acc else BlockWords(acc, block.value)
  }

  // --------------------------------------------------------------------------
  // Constructs cover their lines in order
  // --------------------------------------------------------------------------

  predicate InLines(code: Code, lo: nat, hi: nat)
    decreases code
  {
    lo <= hi && (code == [] || (FragmentInLines(code[0], lo) && InLines(code[1..], FragmentEnd(code[0], lo), hi)))
  }

  /** The code is printed as something that does not end a line. */
  predicate EndsInLine(code: Code) {
    code != [] && var last := code[|code| - 1]; last.Text? ==> last.text != "" && !EndsLine(last.text)
  }

  predicate FragmentInLines(f: Fragment, lo: nat)
    decreases f
  {
    match f
    case Text(_) => true
    case MatchPart(m) => lo <= m.span.startLine && MatchInLines(m)
    case LambdaBody(b) => lo <= b.span.startLine && BlockInLines(b)
  }

  function FragmentEnd(f: Fragment, lo: nat): nat {
    match f
    case Text(_) => lo
    case MatchPart(m) => m.span.endLine
    case LambdaBody(b) => b.span.endLine
  }

  predicate BlockInLines(b: Block)
    decreases b
  {
    StatementsInLines(b.statements, b.span.startLine, b.span.endLine)
  }

  predicate StatementsInLines(ss: seq<Statement>, lo: nat, hi: nat)
    decreases ss
  {
    lo <= hi &&
    (ss == [] ||
     (lo <= ss[0].GetSpan().startLine <= ss[0].GetSpan().endLine && StatementInLines(ss[0])
      && StatementsInLines(ss[1..], ss[0].GetSpan().endLine, hi)))
  }

  predicate StatementInLines(s: Statement)
    decreases s
  {
    var lo, hi := s.GetSpan().startLine, s.GetSpan().endLine;
    match s
    case Plain(_, code, _) => InLines(code, lo, hi) && EndsInLine(code)
    case If(cond, t, elifs, els, _) =>
      var last := if els.Some? then els.value.span.startLine else hi;
      && InLines(cond, lo, t.span.startLine) && BlockInLines(t)
      && ElseIfsInLines(elifs, t.span.endLine, last) && TailInLines(els, hi)
    case Loop(head, b, _) => InLines(head, lo, b.span.startLine) && BlockInLines(b) && b.span.endLine <= hi
    case Try(t, catches, fin, _) =>
      var last := if fin.Some? then fin.value.span.startLine else hi;
      lo <= t.span.startLine && BlockInLines(t) && CatchesInLines(catches, t.span.endLine, last) && TailInLines(fin, hi)
    case FunctionDecl(_, b, _) => lo <= b.span.startLine && BlockInLines(b) && b.span.endLine <= hi
    case Match(m) => MatchInLines(m)
    case TuiBlock(b, _) => lo <= b.span.startLine && BlockInLines(b) && b.span.endLine <= hi
  }

  predicate ElseIfsInLines(es: seq<ElseIf>, lo: nat, hi: nat)
    decreases es
  {
    lo <= hi &&
    (es == [] ||
     (InLines(es[0].condition, lo, es[0].block.span.startLine) && BlockInLines(es[0].block)
      && ElseIfsInLines(es[1..], es[0].block.span.endLine, hi)))
  }

  predicate CatchInLines(c: Catch, lo: nat)
    decreases c
  {
    lo <= c.block.span.startLine && BlockInLines(c.block)
  }

  predicate CatchesInLines(cs: seq<Catch>, lo: nat, hi: nat)
    decreases cs
  {
    lo <= hi && (cs == [] || (CatchInLines(cs[0], lo) && CatchesInLines(cs[1..], cs[0].block.span.endLine, hi)))
  }

  predicate TailInLines(b: Option<Block>, hi: nat)
    decreases b
  {
    b.Some? ==> BlockInLines(b.value) && b.value.span.endLine <= hi
  }

  predicate MatchInLines(m: MatchExpr)
    decreases m
  {
    InLines(m.scrutinee, m.span.startLine, m.scrutineeEnd) && CasesInLines(m.cases, m.scrutineeEnd, m.span.endLine)
  }

  predicate CasesInLines(cs: seq<MatchCase>, lo: nat, hi: nat)
    decreases cs
  {
    lo <= hi &&
    (cs == [] ||
     (lo <= cs[0].span.startLine && CaseInLines(cs[0]) && CasesInLines(cs[1..], cs[0].span.endLine, hi)))
  }

  predicate CaseInLines(c: MatchCase)
    decreases c
  {
    var last := if c.block.Some? then c.block.value.span.startLine else c.span.endLine;
    InLines(c.value, c.span.startLine, last) && TailInLines(c.block, c.span.endLine)
  }

  // --------------------------------------------------------------------------
  // Whole programs
  // --------------------------------------------------------------------------

  /** One of the constructs a file consists of. */
  datatype Section =
    | ImportSection(imp: ImportStmt)
    | ExportSection(block: ExportBlock)
    | StatementSection(stmt: Statement)
  {
    function GetSpan(): Span {
      match this
      case ImportSection(i) => i.span
      case ExportSection(b) => b.span
      case StatementSection(s) => s.GetSpan()
    }
  }

  function ExportOf(p: Program): Option<ExportBlock> {
    if p.moduleDecl.Some? then p.moduleDecl.value.exportBlock else None
  }

  /** The export block goes before the imports if it starts before the first of them. */
  predicate ExportFirst(p: Program) {
    ExportOf(p).Some? && p.imports != [] && ExportOf(p).value.span.startLine < p.imports[0].span.startLine
  }

  function ImportSections(imports: seq<ImportStmt>): seq<Section> {
    if imports == [] then [] else [ImportSection(imports[0])] + ImportSections(imports[1..])
  }

  /** The statements, with a pending export block before the first that starts after it. */
  function StatementSections(ss: seq<Statement>, pending: Option<ExportBlock>): seq<Section>
    decreases |ss| + (if pending.Some? then 1 else 0)
  {
    if pending.Some? && (ss == [] || pending.value.span.startLine < ss[0].GetSpan().startLine) then
      [ExportSection(pending.value)] + StatementSections(ss, None)
    else if ss == [] then []
    else [StatementSection(ss[0])] + StatementSections(ss[1..], pending)
  }

  /** The sections in the order they are printed. */
  function Sections(p: Program): seq<Section> {
    if ExportFirst(p) then
      [ExportSection(ExportOf(p).value)] + (ImportSections(p.imports) + StatementSections(p.statements, None))
    else
      ImportSections(p.imports) + StatementSections(p.statements, ExportOf(p))
  }

  /** The parts of each statement of a parsed program lie in order on the statement's lines. */
  predicate PartsInLines(p: Program) {
    forall i :: 0 <= i < |p.statements| ==> StatementInLines(p.statements[i])
  }

  function ImportsWords(acc: seq<Word>, imports: seq<ImportStmt>): seq<Word>
    decreases imports
  {
    if imports == [] then acc
    else ImportsWords(ImportWords(acc, imports[0]), imports[1..])
  }

  function ImportWords(acc: seq<Word>, i: ImportStmt): seq<Word> {
    var begun := MarkWord(acc, i.span.startLine, Fresh);
    MarkWord(PutWord(PutWord(PutWord(PutWord(begun, "<#"), i.path), "=>"), i.alias), i.span.endLine, Ended)
  }

  function ItemsWords(acc: seq<Word>, items: seq<string>, commas: seq<bool>, i: nat): seq<Word>
    decreases |items| - i
  {
    if i >= |items| then acc
    else ItemsWords(PutWord(PutWord(acc, items[i]), if CommaAfter(commas, i) then "," else ""), items, commas, i + 1)
  }

  predicate CommaAfter(commas: seq<bool>, i: nat) {
    i < |commas| && commas[i]
  }

  function ExportWords(acc: seq<Word>, b: ExportBlock): seq<Word> {
    var begun := MarkWord(acc, b.span.startLine, Fresh);
    var open := OpenWord(PutWord(begun, "#>"), FoldOfExport(b));
    MarkWord(PutWord(ItemsWords(open, b.items, b.commas, 0), "}"), b.span.endLine, Ended)
  }

  function TopWords(acc: seq<Word>, prev: Option<Statement>, ss: seq<Statement>, pending: Option<ExportBlock>)
    : seq<Word>
    decreases |ss| + (if pending.Some? then 1 else 0)
  {
    if pending.Some? && (ss == [] || pending.value.span.startLine < ss[0].GetSpan().startLine) then
      TopWords(ExportWords(acc, pending.value), prev, ss, None)
    else if ss == [] then acc
    else TopWords(WholeStatementWords(acc, ss[0], PlaceOf(prev, ss[0], false)), Some(ss[0]), ss[1..], pending)
  }

  /** The export block that is still pending behind `s`. */
  function LeftPending(pending: Option<ExportBlock>, s: Statement): Option<ExportBlock> {
    if pending.Some? && pending.value.span.startLine < s.GetSpan().startLine then None else pending
  }

  /** A statement, behind the export block if that is due. */
  function NextWords(acc: seq<Word>, prev: Option<Statement>, s: Statement, pending: Option<ExportBlock>): seq<Word> {
    var before := if LeftPending(pending, s) == pending then acc else ExportWords(acc, pending.value);
    WholeStatementWords(before, s, PlaceOf(prev, s, false))
  }

  lemma TopNext(acc: seq<Word>, prev: Option<Statement>, ss: seq<Statement>, i: nat, pending: Option<ExportBlock>)
    requires i < |ss|
    ensures TopWords(acc, prev, ss[i..], pending) ==
            TopWords(NextWords(acc, prev, ss[i], pending), Some(ss[i]), ss[i + 1..], LeftPending(pending, ss[i]))
  {
    assert ss[i..][0] == ss[i] && ss[i..][1..] == ss[i + 1..];
  }

  lemma CodeNext(acc: seq<Word>, code: Code, i: nat, lo: nat, hi: nat)
    requires i < |code|
    ensures CodeWords(acc, code[i..]) == CodeWords(FragmentWords(acc, code[i]), code[i + 1..])
    ensures InLines(code[i..], lo, hi) ==>
              FragmentInLines(code[i], lo) && InLines(code[i + 1..], FragmentEnd(code[i], lo), hi)
    ensures EndsInLine(code[..i + 1]) <==> EndsInLine([code[i]])
  {
    assert code[i..][0] == code[i] && code[i..][1..] == code[i + 1..];
  }

  lemma CasesNext(acc: seq<Word>, cs: seq<MatchCase>, i: nat, lo: nat, hi: nat)
    requires i < |cs|
    ensures CasesWords(acc, cs[i..]) ==
            var arm := CaseWords(MarkWord(acc, cs[i].span.startLine, Fresh), cs[i]);
            CasesWords(MarkWord(arm, cs[i].span.endLine, Ended), cs[i + 1..])
    ensures CasesInLines(cs[i..], lo, hi) ==>
              lo <= cs[i].span.startLine && CaseInLines(cs[i]) && CasesInLines(cs[i + 1..], cs[i].span.endLine, hi)
  {
    assert cs[i..][0] == cs[i] && cs[i..][1..] == cs[i + 1..];
  }

  function HeaderWords(p: Program): seq<Word> {
    if p.moduleDecl.None? then []
    else
      var m := p.moduleDecl.value;
      OpenWord(PutWord(PutWord(MarkWord([], m.span.startLine, Fresh), "#"), m.name), Never)
  }

  function FooterWords(acc: seq<Word>, p: Program): seq<Word> {
    if p.moduleDecl.None? then acc else PutWord(MarkWord(acc, p.moduleDecl.value.span.endLine, Fresh), "}")
  }

  function SectionWords(acc: seq<Word>, prev: Option<Statement>, s: Section): seq<Word> {
    match s
    case ImportSection(i) => ImportWords(acc, i)
    case ExportSection(b) => ExportWords(acc, b)
    case StatementSection(stmt) => WholeStatementWords(acc, stmt, PlaceOf(prev, stmt, false))
  }

  /** `prev` is the statement before, export blocks aside. */
  function SectionsWords(acc: seq<Word>, prev: Option<Statement>, sections: seq<Section>): seq<Word>
    decreases |sections|
  {
    if sections == [] then acc
    else
      var last := if sections[0].StatementSection? then Some(sections[0].stmt) else prev;
      SectionsWords(SectionWords(acc, prev, sections[0]), last, sections[1..])
  }

  /** The program text of a file, with the places where its constructs begin and end. */
  function ProgramWords(p: Program): seq<Word> {
    FooterWords(SectionsWords(HeaderWords(p), None, Sections(p)), p)
  }

  lemma {:induction false} TopIsSections(acc: seq<Word>, prev: Option<Statement>, ss: seq<Statement>,
                                         pending: Option<ExportBlock>)
    ensures TopWords(acc, prev, ss, pending) == SectionsWords(acc, prev, StatementSections(ss, pending))
    decreases |ss| + (if pending.Some? then 1 else 0)
  {
    var all := StatementSections(ss, pending);
    if pending.Some? && (ss == [] || pending.value.span.startLine < ss[0].GetSpan().startLine) {
      assert all[0] == ExportSection(pending.value) && all[1..] == StatementSections(ss, None);
      TopIsSections(ExportWords(acc, pending.value), prev, ss, None);
    } else if ss != [] {
      assert all[0] == StatementSection(ss[0]) && all[1..] == StatementSections(ss[1..], pending);
      TopIsSections(WholeStatementWords(acc, ss[0], PlaceOf(prev, ss[0], false)), Some(ss[0]), ss[1..], pending);
    }
  }

  lemma {:induction false} ImportsThenSections(acc: seq<Word>, imports: seq<ImportStmt>, rest: seq<Section>)
    ensures SectionsWords(acc, None, ImportSections(imports) + rest)
            == SectionsWords(ImportsWords(acc, imports), None, rest)
    decreases imports
  {
    if imports == [] {
      assert [] + rest == rest;
    } else {
      var all := ImportSections(imports) + rest;
      assert all[0] == ImportSection(imports[0]) && all[1..] == ImportSections(imports[1..]) + rest;
      ImportsThenSections(ImportWords(acc, imports[0]), imports[1..], rest);
    }
  }

  lemma ExportThenSections(acc: seq<Word>, b: ExportBlock, rest: seq<Section>)
    ensures SectionsWords(acc, None, [ExportSection(b)] + rest) == SectionsWords(ExportWords(acc, b), None, rest)
  {
    assert ([ExportSection(b)] + rest)[1..] == rest;
  }

  /** The text of a file, taken section by section as the visitor does. */
  lemma ProgramWordsBySection(p: Program)
    ensures ProgramWords(p) == FooterWords(
              if ExportFirst(p) then
                TopWords(ImportsWords(ExportWords(HeaderWords(p), ExportOf(p).value), p.imports),
                         None, p.statements, None)
              else
                TopWords(ImportsWords(HeaderWords(p), p.imports), None, p.statements, ExportOf(p)),
              p)
  {
    var pending := if ExportFirst(p) then None else ExportOf(p);
    var rest := StatementSections(p.statements, pending);
    var start := if ExportFirst(p) then ExportWords(HeaderWords(p), ExportOf(p).value) else HeaderWords(p);
    if ExportFirst(p) {
      ExportThenSections(HeaderWords(p), ExportOf(p).value, ImportSections(p.imports) + rest);
    }
    ImportsThenSections(start, p.imports, rest);
    TopIsSections(ImportsWords(start, p.imports), None, p.statements, pending);
  }
}
