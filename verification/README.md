# Verified models of Zymbol-Lang's formatter, text, numbers and indexes

This project models the parts of the Zymbol-Lang repository whose correctness
takes an argument rather than a reading, and proves what they promise:

* **Circular imports** (`ImportIndex.dfy`): the depth-first search over the import
  graph answers exactly when a cycle can be reached, by the finishing-order
  argument, beside the tables of imports and aliases that are kept in step.
* **The formatter** (`Formatter.dfy`, `Layout.dfy`, `Output.dfy`, `Comments.dfy`,
  `Syntax.dfy`, `SourceOrder.dfy`, `Contents.dfy`): the walk over the statement tree
  interleaves comments by line.
  The output builder carries, for the proofs only, the list of pieces its text
  consists of; everything that is promised about the text is said about that list,
  and `Formatter.Faithful` says it about the finished text. `Contents` lists all a program
  holds as tokens that determine it, and the printed words are those tokens' texts.
* **Parentheses by precedence** (`Expressions.dfy`): the printer against a
  precedence reader for any unambiguous table of levels and operand levels, with exact
  conditions for the formatter's table and for the grammar's operators.
* **The safety gate** (`Gate.dfy`): the collected shape determines the statement forest and
  holds an entry for each statement that stands in the program, however deep.
* **Text addressed by character** (`Utf8.dfy`, `Search.dfy`, `Text.dfy`): byte scans
  against character scans (self-synchronisation, section 3 of RFC 3629), crumbs,
  and shared buffers that read as independent strings over every run.
* **Numbers and values** (`Numbers.dfy`, `Numerals.dfy`, `Values.dfy`): exact
  arithmetic in the range of the language, truncating division, powers, text round
  trips, and equality over nested values.
* **Words in and out** (`Shell.dfy`, `ExecuteWords.dfy`): quoting against a reader of
  shell words (sections 2.2.1, 2.2.2 and 2.3 of the POSIX.1-2017 Shell Command
  Language), and the execute splitter against its printer.
* **State kept over every run** (`SymbolIndex.dfy`, `KeyScript.dfy`, `ModulePaths.dfy`).

Code that changes state is modelled by classes and methods with loops; each method
is proved against a specification function or relation, and the lemmas are about those.

## Where the code and its documentation disagree

The model follows the code. Each item has an exact condition and an input on which it fails.

* The formatter puts `==` and `<>` below the ordering comparisons, while the grammar
  has one left-associative level for all six. `a == (b < c)` without a group in the
  tree prints as `a == b < c`, which the grammar reads the other way round
  (`EqualToOrderingIsMisread`, `PrintReadRoundTripUnderGrammar`). Text that came from
  the grammar at most gains parentheses there (`FormatKeepsTokens`).
* Signs are written without a blank, so `- -5` becomes `--5` and `!` before a match
  becomes `!??`, which the lexer reads as other tokens (`DoubleMinusIsRefused`,
  `NotOfMatchIsRefused`, `FormattedIffApart`).
* A quoted execute path that ends a line is written in three parts, and indentation
  gets between the path and its closing quote (`PathOverTwoLinesGrows`).
* A power bare on the left of a power prints without parentheses (`LeftPowerIsMisread`);
  so do a range on the left of a range and a sum behind a pipe, which the grammar
  refuses (`RangeOfRangeIsRefused`, `PipeIntoSumIsRefused`).
* `find_positions_char` numbers the matches (`FindPositionsCharIffOnlyLeading`).
* The comment on the exponent clamp calls it safe; for base -1 it is not (`ClampIffExact`).
* "A formatter reorders nothing": in a module, whose members the parser takes in any
  order, an import behind a statement is printed before it, an export block between
  two imports behind both, and an export block in front of a statement on its line
  behind that (`PrintedInSourceOrder`, with a file of each family). Comments keep their
  order and are all printed; they may then stand before what follows them in the source.
* A failing climb depends on the spelling for the root alone: `/..` climbs on where `/`
  fails (`RootSpelledTwoWays`).
* Equality is not reflexive on error values and NaN (`EqualToItself`, `NotEqualToThemselves`).
  The comparison treats native functions alike, but no program can make one.

## Reading the formatter's promise

Every place where a construct begins or ends is a `Mark` among the output's pieces,
and `MarkHolds` says how it stands to the comments. What starts on a line of its own,
and the closing brace of a block, a match or a module, leaves no comment for later that
starts before its line. What has ended does not leave the next comment on its line. A
first `¶`, a chained output or the statement of an inlined block may join the line
before, and only where it does may an earlier comment still be waiting; the closing
brace of a block that may be inlined leaves nothing that starts inside the block. And no
comment is written before a place if it starts after both that place and everything
written so far: in a file printed in source order, no comment is written too early
(`InOrderCommentsKeepPlaces`). `PartsInLines` says that the parts of a parsed statement
lie in order on its lines and that its text does not end one, `ProgramInLines` that a
file's constructs do not overlap, and `Lexed` what a lexer delivers: a `//` comment ends
its line.

A piece `Opening` is an opening brace: the line goes on behind it or ends there by the
rule of `Folds`. Behind every one whose line ends stands the piece `Deeper`, and before
its closing brace `Shallower`; between them a line starts with one more indentation. What
stands inside a printed comment or inside one piece of program text, as a literal over
several lines does, is not a line start of its own.

## Model

| member | source | states |
|---|---|---|
| `ImportIndex.ModuleIndex.CheckCircularDeps` | crates/zymbol-analyzer/src/module_index.rs:289-297 | answers a path exactly when a circular import is reachable from the start; the path is closed, at least two long, every step is an import, no file repeats, and the start leads to it |
| `ImportIndex.CycleSearch.DfsCycle` | crates/zymbol-analyzer/src/module_index.rs:299-331 | terminates on every finite graph; without an answer the stack is back as it was, `current` is finished and nothing visited is forgotten; an answer is a simple cycle that the stack leads to |
| `ImportIndex.NoCycleThroughFinished` | crates/zymbol-analyzer/src/module_index.rs:313-331 | why skipping visited files is sound: files ordered by when they finished, no cycle passes through a finished one |
| `ImportIndex.FinishedReachesNoCycle` | crates/zymbol-analyzer/src/module_index.rs:299-331 | a file the search finished with cannot reach any cycle |
| `ImportIndex.StackClosesCycle` | crates/zymbol-analyzer/src/module_index.rs:305-311 | the part of the stack from the repeated file on, closed, is a cycle without repetition |
| `ImportIndex.ModuleIndex.IndexModule` | crates/zymbol-analyzer/src/module_index.rs:226-229 | every file and alias whose last import leads to the module finds the new exports now, and every other finds what it found before |
| `ImportIndex.ModuleIndex.ResolveExports` | crates/zymbol-analyzer/src/module_index.rs:276-287 | looking an alias up through the alias table and the exports gives what the file's imports say |
| `ImportIndex.ModuleIndex.RegisterImport` | crates/zymbol-analyzer/src/module_index.rs:245-261 | graph and alias table both gain the import and stay in step: an alias stands for the last import that used it |
| `ImportIndex.ModuleIndex.ClearImports` | crates/zymbol-analyzer/src/module_index.rs:263-267 | the file keeps no import and no alias, other files keep theirs, and the two tables stay in step |
| `ImportIndex.ModuleIndex.RemoveModule` | crates/zymbol-analyzer/src/module_index.rs:231-238 | the module loses exports, imports and aliases, the tables stay in step, whoever imports the module finds nothing behind the alias, and everyone else what they found before |
| `ImportIndex.ModuleIndex.ResolveAlias` | crates/zymbol-analyzer/src/module_index.rs:269-274 | the target is that of the file's last import under the alias, so it is an edge the cycle search follows |
| `Formatter.Format` | crates/zymbol-formatter/src/visitor.rs:174-314 | for every program, wherever a module has its imports, the text is every keyword and text of the program, once and in the order of its sections, as a list of tokens that determines the program, and every comment exactly once, in source order, changed in blanks only, with nothing but blanks and line ends between them; what is in braces stands on one line exactly when it is simple, comments and configuration allowing; every line starts with one indentation for each brace that is open over a line end, and all braces are closed; every `//` comment is followed by a line end in the finished text; at every place the comments that belong before it are written: those above a construct, those inside a block before its closing brace, those that trail what has ended |
| `Contents.TokensTellProgram` | crates/zymbol-formatter/src/visitor.rs:174-314 | two programs with the same tokens are the same program, spans included: no branch, clause, arm, pattern, item, alias or text of a program is missing from its tokens |
| `Contents.ProgramPrinted` | crates/zymbol-formatter/src/visitor.rs:174-314 | the words of a program are the keywords and texts of its tokens, each once and in order, with the lines where each construct begins and ends, and nothing else |
| `Contents.SectionsHoldAll` | crates/zymbol-formatter/src/visitor.rs:190-300 | the sections are the imports, the export block and the statements, each once and each kind in its order |
| `Contents.KeywordsTell` | crates/zymbol-formatter/src/visitor.rs:697-796 | every construct has a keyword, and no two have the same |
| `Formatter.InOrderCommentsKeepPlaces` | crates/zymbol-formatter/src/visitor.rs:174-314 | in a file printed in the order of its source, no comment stands before a place that lies on an earlier line than the comment |
| `Formatter.FormatVisitor.FormatProgram` | crates/zymbol-formatter/src/visitor.rs:174-314 | the walk consumes every comment and writes the words of the program, each with its place: module header, export block where it is due, imports, statements, closing brace |
| `Formatter.FormatVisitor.FormatTop` | crates/zymbol-formatter/src/visitor.rs:220-300 | the statements of a file in order, the pending export block before the first statement that starts after it, and no comment taken further than what is written |
| `Formatter.FormatVisitor.FormatNext` | crates/zymbol-formatter/src/visitor.rs:897-910 | a statement from its comments to its line end, with the places where it begins and ends; a join leaves no `//` comment open |
| `Formatter.FormatVisitor.MarkPlace` | crates/zymbol-formatter/src/visitor.rs:128-153 | a place is recorded only when the comments left for later may be left there |
| `Formatter.FormatVisitor.FinishLine` | crates/zymbol-formatter/src/visitor.rs:908-910 | what ends on a line takes the comments that trail it there, and the line ends |
| `Formatter.FormatVisitor.FormatBlock` | crates/zymbol-formatter/src/visitor.rs:870-922 | a block stands on one line exactly when it holds one simple statement and no comment and the configuration says so; on one line or several it writes its own words in order; when its closing brace is written no comment that starts between its first line and its last is left, and none from behind its last line is taken |
| `Formatter.FormatVisitor.FormatInlineBlock` | crates/zymbol-formatter/src/visitor.rs:880-883 | only a block that holds no comment stands on one line |
| `Formatter.FormatVisitor.FormatOpenBlock` | crates/zymbol-formatter/src/visitor.rs:884-922 | any other block has its statements on lines of their own, one indentation deeper, and gives the indentation back before its closing brace |
| `Formatter.FormatVisitor.FormatStatements` | crates/zymbol-formatter/src/visitor.rs:888-914 | the statement loop with its joins keeps the invariant that the output is outside any `//` comment |
| `Formatter.FormatVisitor.StartStatement` | crates/zymbol-formatter/src/visitor.rs:897-907 | a joining statement finds a line end that closes no `//` comment and goes behind the line before; any other is preceded by all comments that start before it |
| `Formatter.FormatVisitor.OpenLines` | crates/zymbol-formatter/src/output.rs:136-143 | a brace that is open over the line end raises the indentation by one |
| `Formatter.FormatVisitor.PutBrace` | crates/zymbol-formatter/src/visitor.rs:880-887 | behind an opening brace the line goes on exactly when what is in the braces may stand on it |
| `Formatter.FormatVisitor.CloseBrace` | crates/zymbol-formatter/src/output.rs:145-148 | the indentation goes back before the closing brace is written |
| `Formatter.FormatVisitor.Put` | crates/zymbol-formatter/src/output.rs:62-88 | program text is indented exactly where it starts a line |
| `Formatter.FormatVisitor.JoinPreviousLine` | crates/zymbol-formatter/src/visitor.rs:897-899 | taking the last line end back loses no word, no comment and no closing of a `//` comment |
| `Formatter.FormatVisitor.FormatMatch` | crates/zymbol-formatter/src/visitor.rs:1645-1674 | a match writes scrutinee and arms in order, each arm after its comments and with those that trail it; when its closing brace is written no comment that starts before that line is left |
| `Formatter.FormatVisitor.FlushCommentsBefore` | crates/zymbol-formatter/src/visitor.rs:128-139 | afterwards no unconsumed comment starts before the line, and what was consumed was written |
| `Formatter.FormatVisitor.EmitTrailingComments` | crates/zymbol-formatter/src/visitor.rs:141-153 | afterwards the next comment does not start on the line, and `last_had_trailing` is set exactly when the output is inside a `//` comment |
| `Formatter.FormatVisitor.EmitNote` | crates/zymbol-formatter/src/visitor.rs:97-126 | the printed comment equals its source up to blanks and does not end in a line end |
| `Formatter.FormatVisitor.EmitExportBlock` | crates/zymbol-formatter/src/visitor.rs:160-172 | an export block after the comments before it and with those that trail it |
| `Formatter.FormatVisitor.FormatExportBlock` | crates/zymbol-formatter/src/visitor.rs:317-353 | on one line or several, the block writes its items with the commas the user wrote |
| `Formatter.JoinSplit` | crates/zymbol-formatter/src/visitor.rs:109-124 | splitting a block comment at its line ends and joining the pieces gives the comment back |
| `Formatter.SoundIsFaithful` | crates/zymbol-formatter/src/visitor.rs:174-314 | what the walk keeps at every step amounts to the promise about the finished text |
| `SourceOrder.PrintedInSourceOrder` | crates/zymbol-formatter/src/visitor.rs:190-300 | sections are printed in source order if and only if no import stands behind a statement, the export block does not stand before the last import without an earlier line than the first, and no statement stands behind the export block on its line |
| `SourceOrder.PlacesAscend` | crates/zymbol-formatter/src/visitor.rs:174-314 | printed in source order, no place in the text lies before an earlier one, in every nesting |
| `SourceOrder.ImportBelowStatementMovesUp` | crates/zymbol-formatter/src/visitor.rs:206-221 | a module whose import stands below a constant, as crates/zymbol-parser/src/modules.rs:70-157 accepts: the import is printed first |
| `SourceOrder.ExportBetweenImportsMovesDown` | crates/zymbol-formatter/src/visitor.rs:196-221 | an export block between two imports is printed behind both |
| `SourceOrder.ExportBesideStatementMovesDown` | crates/zymbol-formatter/src/visitor.rs:248-253 | an export block in front of a constant on its line is printed behind it |
| `Layout.ProgramWordsBySection` | crates/zymbol-formatter/src/visitor.rs:174-314 | the words the visitor writes are those of the sections in the order it chooses |
| `Output.OutputBuilder.Write` | crates/zymbol-formatter/src/output.rs:62-88 | text is appended, indented only at a line start, and `at_line_start` tells whether a line end came last |
| `Output.OutputBuilder.BackspaceNewline` | crates/zymbol-formatter/src/output.rs:97-109 | exactly one character, a line end, is taken back, and only at a line start |
| `Output.OutputBuilder.Finish` | crates/zymbol-formatter/src/output.rs:165-175 | a non-empty result ends with exactly one line end and loses line ends only |
| `Output.PopNewlinePops` | crates/zymbol-formatter/src/output.rs:97-109 | taking the last piece's line end back is taking back the text's last character |
| `Output.LineNoteInText` | crates/zymbol-formatter/src/output.rs:97-109 | when the output is sound every `//` comment stands in the text with a line end behind it |
| `Output.MarksAscend` | crates/zymbol-formatter/src/output.rs:62-88 | when the places in the words ascend, so do the marks in the output |
| `Output.FitsAt` | crates/zymbol-formatter/src/output.rs:62-88 | in a sound output every piece fits where it stands, its indentation included |
| `Output.IndentHolds` | crates/zymbol-formatter/src/config.rs:76-83 | the indentation of a level is as many spaces for each level as configured, or a tab for each level, and nothing else |
| `Output.IndentAdds` | crates/zymbol-formatter/src/config.rs:76-83 | the indentation of m + n levels is that of m followed by that of n |
| `Output.OriginalReadsBack` | crates/zymbol-formatter/src/visitor.rs:97-126 | kind and text of a comment are read back from its printed form |
| `Output.SansBlanksIsExact` | crates/zymbol-formatter/src/visitor.rs:97-126 | what a text is without its blanks: nothing exactly when it holds blanks alone, and itself when it holds none |
| `Output.PopKeepsDepth` | crates/zymbol-formatter/src/output.rs:97-109 | taking a line end back changes no depth |
| `Output.FinishedKeeps` | crates/zymbol-formatter/src/output.rs:165-175 | finishing never takes away a line end that closes something |
| `Output.NewlineLast` | crates/zymbol-formatter/src/output.rs:97-109 | a line end written last can be taken back without touching words, comments or soundness |
| `Comments.CommentStream.FromTokens` | crates/zymbol-formatter/src/comments.rs:31-55 | the comments of the tokens, sorted by position: none lost, none repeated, and unchanged when already in order |
| `Comments.SortSorts` | crates/zymbol-formatter/src/comments.rs:53-54 | the sort orders by line and column and permutes |
| `Comments.SortIsStable` | crates/zymbol-formatter/src/comments.rs:53-54 | comments that start at one position keep their order |
| `Comments.CommentsTellTokens` | crates/zymbol-formatter/src/comments.rs:31-52 | the comments are the comment tokens in their order: kind, text and position of each are told by them |
| `Comments.CommentStream.NextBeforeLine` | crates/zymbol-formatter/src/comments.rs:61-71 | takes the next comment if it starts before the line; if none is taken, none behind it starts before the line either |
| `Comments.CommentStream.DrainRest` | crates/zymbol-formatter/src/comments.rs:94-99 | everything not yet consumed, in order |
| `Comments.AnyWithinIsExact` | crates/zymbol-formatter/src/comments.rs:85-92 | the early stop of `has_within` misses no comment |
| `Expressions.ExprFormatter.FormatExpr` | crates/zymbol-formatter/src/visitor.rs:950-960 | the printer appends exactly the text of the tree, with the parentheses its precedence rule asks for and signs written directly before their operands |
| `Expressions.ExprFormatter.FormatBinary` | crates/zymbol-formatter/src/visitor.rs:1110-1167 | as above for a binary expression, with blanks around every operator but `..` |
| `Expressions.FormattedIffApart` | crates/zymbol-lexer/src/variables.rs:62-93 | the lexer reads from the text the tokens that were meant if and only if no sign touches what it fuses with |
| `Expressions.OperatorReadsBack` | crates/zymbol-lexer/src/lib.rs:652-829 | each operator is read back from its text, character by character with the lexer's longer tokens refused, where the printer puts it |
| `Expressions.FusedIffNotRead` | crates/zymbol-lexer/src/variables.rs:62-93 | a sign counts as fused with what follows exactly when the character reader does not read the sign there |
| `Expressions.FusedIsRefused` | crates/zymbol-parser/src/expressions.rs:333-348 | a text in which a sign has fused is no expression |
| `Expressions.PrintReadRoundTrip` | crates/zymbol-formatter/src/visitor.rs:1110-1242 | reading the text back with the formatter's own table gives the tree up to grouping if and only if no power stands bare as the left operand of a power and no sign touches what it fuses with |
| `Expressions.PrintReadRoundTripUnderGrammar` | zymbol-lang.ebnf:838-891 | read by the grammar the round trip holds if and only if, besides, no ordering comparison stands bare on the right of `==` or `<>`, no range on the left of a range, no other operator behind `|>`, and no comma is an operator |
| `Expressions.ReadIffCanonical` | zymbol-lang.ebnf:838-891 | for every unambiguous table, the reader accepts exactly the token lists of the trees whose operands may stand where they do |
| `Expressions.RoundTripIffCanonical` | crates/zymbol-formatter/src/visitor.rs:1110-1242 | for every unambiguous table, the text reads back as the tree exactly when the parenthesised tree fits that table and no sign touches what it fuses with |
| `Expressions.SameTokensSameTree` | crates/zymbol-formatter/src/visitor.rs:1110-1223 | two trees that agree up to grouping and print the same tokens are the same, groups included |
| `Expressions.PrintIdempotent` | crates/zymbol-formatter/src/visitor.rs:1110-1242 | the text is readable if and only if no sign touches what it fuses with; then formatting what was read gives the same tokens |
| `Expressions.FormatKeepsTokens` | crates/zymbol-formatter/src/visitor.rs:1186-1242 | formatting a text that the grammar reads gives back its tokens if and only if no `==` or `<>` stands bare on the left of an ordering comparison and no sign comes to touch what it fuses with |
| `Expressions.ScanTouches` | crates/zymbol-formatter/src/visitor.rs:1226-1242 | whether signs touch is told by the tokens alone, however they are grouped |
| `Expressions.DoubleMinusIsRefused` | crates/zymbol-formatter/src/visitor.rs:1226-1231 | `- -5` is an expression and is written `--5`, which is none |
| `Expressions.NotOfMatchIsRefused` | crates/zymbol-lexer/src/lib.rs:799-805 | `!` before a match is written `!??`, where `!?` opens a try block |
| `Expressions.LeftPowerIsMisread` | crates/zymbol-formatter/src/visitor.rs:1197-1200 | the input on which the formatter's table fails |
| `Expressions.EqualToOrderingIsMisread` | crates/zymbol-formatter/src/visitor.rs:1209-1214 | the input on which the grammar's comparison level fails |
| `Expressions.RangeOfRangeIsRefused` | zymbol-lang.ebnf:888-891 | `a..b..c` is printed and is no expression of the grammar |
| `Expressions.PipeIntoSumIsRefused` | zymbol-lang.ebnf:841-844 | `a |> b + c` is printed and is no expression of the grammar |
| `Expressions.CanonicalUnderGrammar` | zymbol-lang.ebnf:838-891 | exactly which trees the printer parenthesises as the grammar requires |
| `Gate.ProgramShape` | crates/zymbol-formatter/src/gate.rs:122-130 | the collector's list is the pre-order of the statement forest |
| `Gate.Collector.CollectStatement` | crates/zymbol-formatter/src/gate.rs:138-176 | a statement appends itself and then the statements of its blocks, one level deeper |
| `Gate.Collector.CollectBlock` | crates/zymbol-formatter/src/gate.rs:132-136 | a block appends its statements at its depth |
| `Gate.OntoIsPreOrder` | crates/zymbol-formatter/src/gate.rs:122-176 | pushing onto one shared list is the same as concatenating |
| `Gate.PreOrderInjective` | crates/zymbol-formatter/src/gate.rs:122-176 | a pre-order list of depths and kinds determines the forest |
| `Gate.SameShapeIffSameForest` | crates/zymbol-formatter/src/gate.rs:76-86 | the gate accepts two programs exactly when their statement trees are the same |
| `Gate.ShapeTellsStatements` | crates/zymbol-formatter/src/gate.rs:122-176 | the shape holds an entry of a depth and a kind exactly when a statement of that kind stands that deep in the program, by a relation of standing in a block of a statement that names every branch, body, clause and arm |
| `Gate.ChildrenAreBlocks` | crates/zymbol-formatter/src/gate.rs:138-176 | below a statement stand the statements of its blocks, block by block, and no others |
| `Gate.BlocksAreThoseOf` | crates/zymbol-formatter/src/gate.rs:138-176 | the blocks are exactly those that belong to the statement |
| `Gate.BlockCount` | crates/zymbol-formatter/src/gate.rs:138-176 | there is one block for each branch, body, clause and arm with a block |
| `Gate.BlocksInSourceOrder` | crates/zymbol-formatter/src/gate.rs:138-176 | the blocks of a parsed statement come in the order of their lines |
| `Gate.EntriesOfStatement` | crates/zymbol-formatter/src/gate.rs:138-176 | a statement adds one entry for itself and one for every statement in its blocks at any depth |
| `Gate.DiscriminantTells` | crates/zymbol-formatter/src/gate.rs:138-144 | statements have the same discriminant exactly when they are of the same constructor, and of the same plain kind |
| `Gate.BlocksOfOneStatementAreNotTold` | crates/zymbol-formatter/src/gate.rs:146-153 | what the shape cannot see: which block of its statement a statement stands in |
| `Utf8.PrefixIffBytes` | crates/zymbol-intrinsics/src/search.rs:11-25 | a text starts with a pattern exactly when its bytes start with the pattern's bytes |
| `Utf8.InsideIsContinuation` | crates/zymbol-intrinsics/src/search.rs:11-25 | a byte inside a character is a continuation byte |
| `Utf8.EncodePrefixFree` | crates/zymbol-intrinsics/src/search.rs:11-25 | no character's bytes start with those of another |
| `Search.CountStr` | crates/zymbol-intrinsics/src/search.rs:11-25 | the byte scan counts as many matches as the character scan finds, and no separate set of matches is larger |
| `Search.FindPositionsStr` | crates/zymbol-intrinsics/src/search.rs:37-53 | every position is a true match, matches never overlap, and no separate set of matches is larger |
| `Search.ByteScanIsCharScan` | crates/zymbol-intrinsics/src/search.rs:11-53 | from any character on, the byte scan stops at the byte offsets of the character scan's matches |
| `Search.NoMatchInside` | crates/zymbol-intrinsics/src/search.rs:11-25 | no match starts inside a character |
| `Search.LeftmostIsLargest` | crates/zymbol-intrinsics/src/search.rs:37-53 | leftmost scanning finds the largest number of matches that do not overlap |
| `Search.FindPositionsCharIffOnlyLeading` | crates/zymbol-intrinsics/src/search.rs:28-35 | `find_positions_char` gives the positions of the character if and only if its occurrences all lead the text |
| `Search.PositionsAreExact` | crates/zymbol-intrinsics/src/search.rs:28-35 | the positions that are asked for: ascending, each that of the character, and none left out |
| `Search.FindPositionsCharCounterexample` | crates/zymbol-intrinsics/src/search.rs:28-35 | a text on which it does not |
| `Text.CharLen` | crates/zymbol-common/src/text.rs:17-24 | the character count, by the byte length on ASCII |
| `Text.CharRange` | crates/zymbol-common/src/text.rs:26-53 | the slice between two byte offsets is the slice of the characters |
| `Text.ByteFromCrumbIsOffset` | crates/zymbol-common/src/text.rs:59-74 | from the nearest crumb, the offset of any character, or the byte length past the end |
| `Text.CrumbsAreBoundaries` | crates/zymbol-common/src/text.rs:64-74 | no crumb points inside a character, so cutting the text at a crumb does not panic |
| `Text.SliceIsChars` | crates/zymbol-common/src/text.rs:151-156 | cutting at the offsets of characters cuts characters |
| `Text.Texts.Run` | crates/zymbol-common/src/text.rs:89-179 | any sequence of clone, edit, drop, count and position requests answers as if every handle held its own string |
| `Text.Texts.Perform` | crates/zymbol-common/src/text.rs:89-179 | the same for one request, whatever the sharing |
| `Text.Texts.EditText` | crates/zymbol-common/src/text.rs:158-165 | an edit changes this handle alone: in place when sole owner, in a fresh buffer otherwise |
| `Text.Texts.CharByte` | crates/zymbol-common/src/text.rs:127-141 | the byte of a character by ASCII shortcut or crumbs; no text changes |
| `Text.Texts.CharLenOf` | crates/zymbol-common/src/text.rs:117-125 | the count, from the cache once known; no text changes |
| `Text.Texts.CharAtOf` | crates/zymbol-common/src/text.rs:143-149 | the character at a position, if there is one |
| `Text.Texts.CharRangeOf` | crates/zymbol-common/src/text.rs:151-156 | the characters between two positions |
| `Numbers.OperationsExact` | crates/zymbol-common/src/num.rs:62-98 | addition, subtraction and multiplication give the exact result when it is in range and nothing otherwise, never a wrapped one |
| `Numbers.Pow` | crates/zymbol-common/src/num.rs:104-129 | for any machine integer, the exact power when it is in range and nothing otherwise, within 53 multiplications |
| `Numbers.PowerStaysOut` | crates/zymbol-common/src/num.rs:106-110 | a power that has left the range never comes back |
| `Numbers.OutOfRangeFrom53` | crates/zymbol-common/src/num.rs:112-115 | from exponent 53 on every base of magnitude 2 or more is out of range |
| `Numbers.TruncDivides` | crates/zymbol-interpreter/src/arithmetic_ops.rs:167-226 | truncating division and remainder: dividend equals quotient times divisor plus remainder, with the remainder's size and sign |
| `Numbers.TruncUnique` | crates/zymbol-interpreter/src/arithmetic_ops.rs:147-226 | no other quotient and remainder satisfy that |
| `Numbers.EvalExact` | crates/zymbol-interpreter/src/arithmetic_ops.rs:38-226 | a tree of `+ - * / %` evaluates if and only if every part is in range and no divisor is zero, and then to its mathematical value |
| `Numbers.ErrorsAreTrue` | crates/zymbol-interpreter/src/arithmetic_ops.rs:38-226 | the error names a sub-expression that really is out of range or really divides by zero |
| `Numbers.EvalPow` | crates/zymbol-interpreter/src/arithmetic_ops.rs:229-245 | a non-negative exponent is clamped to 32 bits and the checked power taken |
| `Numbers.ClampIffExact` | crates/zymbol-interpreter/src/arithmetic_ops.rs:238-243 | the clamp changes nothing if and only if the base is not -1 or the exponent is not an even one above the 32-bit limit |
| `Numbers.ClampCounterexample` | crates/zymbol-interpreter/src/arithmetic_ops.rs:238-243 | an exponent at which the clamp answers -1 instead of 1 |
| `Numerals.ParseDecimal` | crates/zymbol-common/src/num.rs:176-184 | the decimal text of an integer parses to it in range, and to no number past it |
| `Numerals.ParseSpelling` | crates/zymbol-common/src/num.rs:165-184 | with any sign and any number of leading zeros, digits are judged by the integer rules alone |
| `Numerals.BaseStringRoundTrip` | crates/zymbol-common/src/num.rs:291-300 | the prefixed, padded, signed text of an integer in any base reads back as the integer |
| `Numerals.BaseStringWidth` | crates/zymbol-common/src/num.rs:291-300 | decimal and hexadecimal texts have at least four digits, the others one, and no zero in front that this does not ask for |
| `Values.EqualToItself` | crates/zymbol-interpreter/src/arithmetic_ops.rs:265-326 | a value equals itself if and only if it holds no NaN, no error value and no native function |
| `Values.EqualIffSameContent` | crates/zymbol-interpreter/src/arithmetic_ops.rs:265-326 | values are equal if and only if each equals itself and they have the same content, defined without the comparison: numbers by value whatever their type, texts by their characters, lists item by item, dictionaries as maps from keys to contents, functions by identity |
| `Values.EqualSymmetric` | crates/zymbol-interpreter/src/arithmetic_ops.rs:265-326 | equality is symmetric, dictionaries included |
| `Values.EqualTransitive` | crates/zymbol-interpreter/src/arithmetic_ops.rs:265-326 | in range, equality is transitive, integers mixed with floats included |
| `Values.IntegersAreDoubles` | crates/zymbol-common/src/num.rs:38-48 | rounding to 53 bits leaves every integer of the language as it is |
| `Values.TransitivityNeedsTheRange` | crates/zymbol-interpreter/src/arithmetic_ops.rs:285-287 | one past the range, two integers equal one float and not each other |
| `Values.NotEqualToThemselves` | crates/zymbol-interpreter/src/arithmetic_ops.rs:265-326 | NaN and error values do not equal themselves, bare or inside an array |
| `Values.SameKeys` | crates/zymbol-interpreter/src/arithmetic_ops.rs:295-309 | dictionaries of one size whose keys are all found have the same keys |
| `Values.KeyOrderIsNotTold` | crates/zymbol-interpreter/src/arithmetic_ops.rs:301-309 | dictionaries with the same entries in another order are equal |
| `Shell.QuotedWordsReadBack` | crates/zymbol-common/src/shell.rs:189-202 | any list of texts, quoted and joined by spaces, is read by a POSIX shell as exactly that list |
| `Shell.ReadQuoteWord` | crates/zymbol-common/src/shell.rs:189-202 | a quoted text in front of anything is read as its text and leaves the rest |
| `ExecuteWords.SplitExecute` | crates/zymbol-common/src/shell.rs:515-544 | the words of the trimmed text: blanks separate, double quotes hold together, an open quote runs to the end |
| `ExecuteWords.WordsAreRead` | crates/zymbol-common/src/shell.rs:515-544 | the words are those of a reader that takes one character at a time, inside a word or between words |
| `ExecuteWords.TrimIsExact` | crates/zymbol-common/src/shell.rs:515-520 | trimming takes whitespace off both ends and leaves none there |
| `ExecuteWords.FormatExecute` | crates/zymbol-formatter/src/visitor.rs:2030-2048 | the command written through the output builder between `</` and `/>`, arguments quoted when empty or holding a blank; behind a path that ends a line stands the indentation |
| `ExecuteWords.SplitPrintSplit` | crates/zymbol-common/src/shell.rs:515-544 | for every raw text, splitting what is written of what was split gives the same command if and only if it is not a quoted path that ends a line where lines are indented |
| `ExecuteWords.PrintSplitIffRepresentable` | crates/zymbol-formatter/src/visitor.rs:2030-2048 | any command survives writing and splitting if and only if its quoted parts hold no quote, its bare parts do not start with one, and its path is not moved from its closing quote by indentation |
| `ExecuteWords.PathOverTwoLinesGrows` | crates/zymbol-formatter/src/output.rs:68-73 | a quoted path that ends a line takes on the indentation |
| `ExecuteWords.SettledIsRead` | crates/zymbol-formatter/src/visitor.rs:2031-2035 | the path that takes on indentation becomes another one that reads back as itself |
| `ExecuteWords.SplitRepresentable` | crates/zymbol-common/src/shell.rs:515-544 | the splitter only ever delivers such commands |
| `ExecuteWords.FormatKeepsCommand` | crates/zymbol-lexer/src/lib.rs:686-710 | embedded in a source at any indentation, the written command ends at its own `/>`, and is the same command if and only if its path is not moved |
| `SymbolIndex.SymbolIndex.IndexDocument` | crates/zymbol-analyzer/src/symbols.rs:74-94 | the document's former symbols are gone from every name and its new ones stand at the end of their names, in order; the indexes stay in step |
| `SymbolIndex.SymbolIndex.RemoveDocument` | crates/zymbol-analyzer/src/symbols.rs:108-128 | symbols and references of the document are gone, lists that became empty are dropped, and the indexes stay in step |
| `SymbolIndex.SymbolIndex.AddReference` | crates/zymbol-analyzer/src/symbols.rs:131-136 | the reference is added under its name and the symbol indexes are untouched |
| `SymbolIndex.SymbolIndex.FindDefinitions` | crates/zymbol-analyzer/src/symbols.rs:139-144 | whatever way leads down to a symbol of that name in the latest symbols of a document, its reference is found, and everything found is that of such a symbol; for each document the references stand in the order of the flattened symbols |
| `SymbolIndex.SymbolIndex.Stats` | crates/zymbol-analyzer/src/symbols.rs:186-192 | the number of symbols is the same counted by name or by document |
| `SymbolIndex.SameReferences` | crates/zymbol-analyzer/src/symbols.rs:56-94 | the two indexes hold the same references, each as often |
| `SymbolIndex.RemovedLeavesNoTrace` | crates/zymbol-analyzer/src/symbols.rs:108-128 | a document that is not indexed stands under no name |
| `SymbolIndex.PurgedForAll` | crates/zymbol-analyzer/src/symbols.rs:111-121 | purging only the names the document uses purges it from all |
| `SymbolIndex.FlattenAllIn` | crates/zymbol-analyzer/src/symbols.rs:97-105 | all flattened symbols belong to the document |
| `SymbolIndex.FlattenListsAll` | crates/zymbol-analyzer/src/symbols.rs:97-105 | flattening lists every symbol that a way of child positions leads to, at a place of its own; a symbol stands before its children and siblings in their order, and there is nothing else in the list |
| `KeyScript.KeyQueue.Run` | crates/zymbol-common/src/vscreen.rs:113-157 | any mix of blocking and polling reads takes the script apart from the front: frames shown and keys delivered, with what is still queued, are the script's, once each and in order; empty polls, the units that blocking reads passed and the units still queued add up to those of the script's waits; a key behind waits of n units is delivered by the poll after n empty ones |
| `KeyScript.KeyQueue.NextBlocking` | crates/zymbol-common/src/vscreen.rs:117-126 | past any waits to the next key, each frame on the way shown once; without a key the script is exhausted |
| `KeyScript.KeyQueue.NextPoll` | crates/zymbol-common/src/vscreen.rs:134-156 | the next key if no unit of a wait stands before it; otherwise no key, and exactly one unit less before the same key; nothing when the script is exhausted |
| `KeyScript.ObservedIsScript` | crates/zymbol-common/src/vscreen.rs:113-157 | what the reads observed is what the script held, waits aside |
| `KeyScript.TimelineCounts` | crates/zymbol-common/src/vscreen.rs:113-157 | a script's timeline has as many ticks as the sum of its waits, and a key and a frame for each of its own |
| `KeyScript.PollCost` | crates/zymbol-common/src/vscreen.rs:134-156 | a poll without a key costs exactly one tick unless the script has run out |
| `KeyScript.AllAccounted` | crates/zymbol-common/src/vscreen.rs:113-157 | units, keys and frames of the script are conserved over any run |
| `ModulePaths.Climb` | crates/zymbol-ast/src/modules.rs:222-243 | fails exactly when the base is the root with only names behind it, fewer than the levels, and otherwise leads to the n-th ancestor |
| `ModulePaths.ClimbLeadsToAncestor` | crates/zymbol-ast/src/modules.rs:222-243 | the same for every spelling of the base |
| `ModulePaths.AncestorDropsNames` | crates/zymbol-ast/src/modules.rs:222-243 | the n-th ancestor drops the last n names; with fewer names it is the root, or as many levels above the current directory |
| `ModulePaths.ClimbInStages` | crates/zymbol-ast/src/modules.rs:222-243 | climbing m and then n levels fails and leads as climbing m + n does |
| `ModulePaths.ResolveRelative` | crates/zymbol-ast/src/modules.rs:192-198 | a relative import is resolved by climbing and then descending name by name, and fails where the climb does |
| `ModulePaths.ResolvedLeadsBelowAncestor` | crates/zymbol-ast/src/modules.rs:192-200 | an import leads to the named place below the ancestor |
| `ModulePaths.SpellingDoesNotMatter` | crates/zymbol-ast/src/modules.rs:204-221 | relative spellings of one directory resolve an import to one place |
| `ModulePaths.RootSpelledTwoWays` | crates/zymbol-ast/src/modules.rs:231-239 | the root written `/` and `/..` is one place, and climbing fails from one spelling only |

## Left out

- Formatter.Format: blanks between tokens, blank lines between constructs and whether an opening brace starts a line are written as the code writes them but not promised: whether two words need a blank is up to the lexer, which is not part of this model. Line wrapping by `current_column` and `no_wrap` are not modelled.
- Formatter.Format: that formatting a formatted file changes nothing is stated for operator expressions only (`PrintIdempotent`), since for whole files it needs the lexer and the parser, which are not part of this model.
- Formatter.FormatVisitor.FormatBlock: a single statement that was inlined, and a `¶` or a chained output that was joined, are exempt from "all earlier comments come first", because the code does not flush comments before them.
- Syntax: expressions inside statements are text fragments, matches and lambda bodies; the other expression printers and the reprinting of literals from the source are text here.
- Expressions.PrintReadRoundTripUnderGrammar: the parser builds ranges and pipes as nodes of their own, with printers that are not modelled; here they are binary operators, `..` without its step and `|>` without arguments.
- Expressions.PrintReadRoundTrip: juxtaposition has no token of its own and is not an operator of the model. An operand is one fragment whose first character may fuse with a sign before it; its end is taken not to fuse with a `..` or a parenthesis behind it.
- Gate: comparing token lists and comment counts of two lexings needs the lexer, which is not part of this model.
- Numbers.EvalExact: operands are integers; text coerced to numbers, floats and type errors of the operators are not modelled.
- Numbers.EvalPow: a negative exponent gives a float and is only named as such.
- Values.EqualTransitive: a float is a real, an infinity or NaN; arithmetic on floats is not modelled. Both zeros are one real, as they compare equal.
- Numerals.ParseSpelling: text that spells no integer is handed to the float reader, which is not modelled.
- ImportIndex: canonical paths, stored module errors and export tables are not modelled beyond being kept per file.
- Text: reference counts are the number of handles that share a buffer.
- SymbolIndex: case-insensitive search and locations are left out; a symbol's span is its line.
- KeyScript.KeyQueue.Run: frames are counted, not drawn; the virtual screen and the parsing of key files are left out.
- ModulePaths.Climb: Unix paths whose `..` may stand anywhere, read lexically as the code does; Windows prefixes, home and absolute imports, the file extension and symbolic links are left out.
- Values.EqualIffSameContent: stated for dictionaries without repeated keys, which is how the interpreter builds them.
- Shell.QuotedWordsReadBack: the `cmd.exe` branch is left out; reserved words and redirections concern the words' place in a command, not their reading.
- Collections of language server features (completion, hover, diagnostics), the interpreter's block execution and the virtual machine are left out.
