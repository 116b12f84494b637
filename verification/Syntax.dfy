/**
 The statement tree the formatter walks. Expressions appear as the fragments
 their printer writes: text, `??` expressions and lambda bodies.
 */
module Syntax {
  import opened Options

  /** Where a construct starts, and the line it ends on. */
  datatype Span = Span(startLine: nat, startCol: nat, endLine: nat)

  /** The statements that hold no block of their own. */
  datatype PlainKind =
    | Output | Assignment | ConstDecl | DestructureAssign | LifetimeEnd | Input
    | Break | Continue | Newline | Return | Expression | CliArgsCapture
    | SetNumeralMode | Sleep | KeyInput | ClearScreen | OutputPos

  datatype Fragment =
    | Text(text: string)
    | MatchPart(m: MatchExpr)
    | LambdaBody(body: Block)

  type Code = seq<Fragment>

  datatype Statement =
    | Plain(kind: PlainKind, code: Code, span: Span)
    | If(condition: Code, thenBlock: Block, elseIfs: seq<ElseIf>, elseBlock: Option<Block>, span: Span)
    | Loop(head: Code, body: Block, span: Span)
    | Try(tryBlock: Block, catches: seq<Catch>, finallyBlock: Option<Block>, span: Span)
    | FunctionDecl(signature: string, body: Block, span: Span)
    | Match(expr: MatchExpr)
    | TuiBlock(body: Block, span: Span)
  {
    function GetSpan(): Span {
      if Match? then expr.span else span
    }

    predicate IsNewline() {
      Plain? && kind.Newline?
    }

    predicate IsOutput() {
      Plain? && kind.Output?
    }
  }

  datatype Block = Block(statements: seq<Statement>, span: Span)

  datatype ElseIf = ElseIf(condition: Code, block: Block)

  datatype Catch = Catch(errorType: Option<string>, block: Block)

  datatype MatchExpr = MatchExpr(scrutinee: Code, scrutineeEnd: nat, cases: seq<MatchCase>, span: Span)

  /** An arm; one without a value has no fragments in `value`. */
  datatype MatchCase = MatchCase(pattern: string, value: Code, block: Option<Block>, span: Span)

  datatype ExportBlock = ExportBlock(items: seq<string>, commas: seq<bool>, span: Span)

  datatype ModuleDecl = ModuleDecl(name: string, exportBlock: Option<ExportBlock>, span: Span)

  datatype ImportStmt = ImportStmt(path: string, alias: string, span: Span)

  datatype Program = Program(moduleDecl: Option<ModuleDecl>, imports: seq<ImportStmt>, statements: seq<Statement>)
}
