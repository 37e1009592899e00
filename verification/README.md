# PGQT: verified core

PGQT lets PostgreSQL clients talk to a SQLite database. This project models the parts of it that translate, encode or
keep state, and proves what they promise:

- the PL/pgSQL to Lua compiler: emitted lines, the Lua blocks they are read back as, and the meaning of both languages;
- the codecs that must undo each other: array JSON and array literals, COPY in text, CSV and binary format;
- the transaction and savepoint state machine, next to SQLite's own;
- the rewriting of DISTINCT ON, of set-operation trees and of calls to SQL functions;
- integer ranges as sets of integers;
- Welford's variance and the vector distances, over exact reals.

Code that updates its variables step by step (the emitters, the scanners, the COPY handler, the session, the
canonicalization, the variance state) is written as classes and loops whose contracts equate the result or the new
state with a function; the lemmas are about these functions. Where the code does not do what PostgreSQL does, the model
follows the code, and a lemma says exactly when the two agree.

## Files

| file | contents |
|---|---|
| `PlpgsqlAst.dfy`, `LuaEmitter.dfy` | the statements, the emitted lines, the emitting class |
| `LuaText.dfy`, `LuaReader.dfy`, `LuaBalance.dfy`, `LuaLoads.dfy` | from the characters to the lines; a reader of Lua blocks; balance and indentation; what Luau accepts |
| `Execution.dfy`, `PlpgsqlSemantics.dfy`, `LuaSemantics.dfy` | fuel-bounded interpreters of the two languages |
| `TranslationCorrect.dfy`, `FunctionEntry.dfy`, `ResultSets.dfy`, `CompiledText.dfy` | meaning is preserved; the start of a call; which functions return sets; from the text to its effect |
| `TranslationLimits.dfy`, `ReturnPaths.dfy`, `ExceptionHandlers.dfy` | where meaning is not preserved, and when it is; functions that end without a RETURN; the choice of handlers |
| `ArrayText.dfy`, `ArrayJson.dfy`, `ArrayLiteral.dfy`, `ArraySpelling.dfy` | array printers, scanners and their round trips; texts that are not printed |
| `CopyText.dfy`, `CopyCsv.dfy`, `CopyBinary.dfy`, `CopyHandler.dfy` | COPY formats and the handler that uses them |
| `Sqlite.dfy`, `Session.dfy`, `PostgresSession.dfy` | SQLite's transactions; the session that drives them; PostgreSQL's transaction blocks next to it |
| `Relations.dfy`, `DistinctOn.dfy`, `SetOperations.dfy`, `Inlining.dfy` | ORDER BY and LIMIT; the rewritings |
| `Ranges.dfy`, `Statistics.dfy`, `Vectors.dfy` | range algebra, variance, distances |
| `Wrappers.dfy`, `Text.dfy`, `Decimal.dfy`, `Sequences.dfy`, `Reals.dfy` | Option and Result; string operations; numerals; small facts |

`dafny verify dfyconfig.toml` checks the whole project.

## Model

| member | source | states |
|---|---|---|
| LuaEmitter.TranspileToLua | src/plpgsql/transpiler.rs:14-53 | the emitter's text is the rendering of the line list that the reading and execution theorems are about |
| LuaEmitter.TranspileContext.EmitStatement | src/plpgsql/transpiler.rs:231-256 | for every statement tree: appends exactly the statement's lines and returns indentation and loop depth to their entry values |
| LuaEmitter.TranspileContext.EmitProtectedBlock | src/plpgsql/transpiler.rs:259-319 | the same for a block with exception handlers: protected call, handler chain, outcome test |
| LuaEmitter.AssignedExprIsRight | src/plpgsql/transpiler.rs:339-352 | of `target := expr` the expression behind the first `:=` is assigned |
| LuaText.CodeReadsBack | src/plpgsql/transpiler.rs:199-202 | from its characters each emitted line is read back as the statement or block boundary that was meant, with its expressions, by Lua's keywords |
| LuaText.TextReadsBack | src/plpgsql/transpiler.rs:14-53 | the text determines its lines and their indentation |
| LuaReader.ReadStmt | src/plpgsql/transpiler.rs:339-460 | whatever lines follow, a statement's lines are read as exactly its intended Lua trees |
| LuaReader.ReadFunction | src/plpgsql/transpiler.rs:14-53 | the whole chunk is read as one intended function with nothing left over |
| LuaBalance.ReadableIffListsNonEmpty | src/plpgsql/transpiler.rs:612-641 | the chunk can be read at all exactly if no CASE has an empty WHEN list and no exception section is empty |
| LuaBalance.FunctionIsWellNested | src/plpgsql/transpiler.rs:189-202 | every line is indented to its nesting depth, no prefix closes more blocks than it opened, and none stays open |
| LuaBalance.NestCountsOpenBlocks | src/plpgsql/transpiler.rs:189-202 | in well-nested text the depth reached is the number of open blocks |
| LuaLoads.LoadsIffTidy | src/plpgsql/transpiler.rs:464-488 | Luau accepts the chunk exactly if, in addition, every EXIT has its loop in the same protected block and nothing follows RETURN or EXIT |
| TranslationCorrect.StmtCorrect | src/plpgsql/transpiler.rs:339-447 | from states that match in all variables but FOUND, a supported statement and its translation end alike, in matching states, for every fuel |
| TranslationCorrect.ListCorrect | src/plpgsql/transpiler.rs:259-275 | the same for statement lists |
| TranslationCorrect.FunctionCorrect | src/plpgsql/transpiler.rs:14-53 | behind its prologue the translated function comes to what the PL/pgSQL function comes to (its value, its rows less the NULLs, an error, or no end) exactly if the run does not end amiss: a value function without a value, another kind with one, a set-returning function without RETURN NEXT in its text |
| TranslationCorrect.NonNullIsIdentity | src/plpgsql/transpiler.rs:491-505 | RETURN NEXT's rows survive exactly if none is NULL (inserting nil into a Lua table does nothing) |
| FunctionEntry.PrologueRuns | src/plpgsql/transpiler.rs:25-34 | run from the arguments of a call, the prologue builds the state in which PL/pgSQL starts the body: parameters bound, defaults evaluated in order, the result set empty |
| ResultSets.HasReturnNextIff | src/plpgsql/transpiler.rs:94-156 | for a body without handlers RETURN NEXT is found exactly if the line that makes sure of a result set is written |
| ResultSets.AllAddNoRow | src/plpgsql/transpiler.rs:94-156 | where it is not found, no run of the body in PL/pgSQL adds a row |
| ResultSets.ReturnNextInHandlerIsMissed | src/plpgsql/transpiler.rs:98-102 | a RETURN NEXT in an exception handler is written but not found |
| CompiledText.CompiledTextCorrect | src/plpgsql/transpiler.rs:14-53 | end to end: the text that the translator returns, read character by character and called with any arguments, agrees under the same condition, if no expression depends on FOUND and every statement is on one line |
| CompiledText.CompiledLinesCorrect | src/plpgsql/runtime.rs:105-114 | the same from the lines, whatever is in them; rows are handed out only as the marked result set that the host looks for |
| ReturnPaths.EndsWellIff | src/plpgsql/transpiler.rs:474-488 | all functions of a control structure agree, whatever their expressions, exactly if no way through the body ends amiss; for a value function: if no way reaches its end or a bare RETURN |
| TranslationLimits.MissingReturnIsNull | src/plpgsql/runtime.rs:408-410 | `IF c THEN RETURN e; END IF` fails in PL/pgSQL if c does not hold; compiled it returns NULL |
| CompiledText.SupportedTextLoads | src/plpgsql/transpiler.rs:464-488 | for supported functions the chunk loads exactly if EXIT and RETURN are placed as Lua demands |
| TranslationLimits.AgreementIffFoundIsNotRead | src/plpgsql/transpiler.rs:57-71 | the supported statements agree from all matching states exactly if no expression depends on FOUND |
| TranslationLimits.FoundIsLost | src/plpgsql/transpiler.rs:426-447 | a function that returns FOUND behind a FOR loop returns whether the loop ran in PL/pgSQL; compiled, whatever the bounds, it returns nil or what an earlier call left in a global of that name |
| TranslationLimits.CountedLoopAgreesIff | src/plpgsql/transpiler.rs:426-447 | executed with any supported body, the emitted loop agrees exactly if it runs forward, its bounds are equal, or they are no integers |
| TranslationLimits.CaseWithoutElseAgreesIff | src/plpgsql/transpiler.rs:612-641 | CASE without ELSE agrees exactly if some WHEN applies |
| TranslationLimits.ProtectedBlockAgreesIffBodyReturns | src/plpgsql/transpiler.rs:259-319 | a block with handlers whose body raises nothing agrees exactly if the body does not end normally |
| ExceptionHandlers.HandlerChainRuns | src/plpgsql/transpiler.rs:279-307 | the emitted chain runs the first handler whose one tested text is the code that is seen; without one it re-raises, or goes on silently if a condition is spelled `OTHERS` |
| ExceptionHandlers.FailureBranchRuns | src/plpgsql/transpiler.rs:268-312 | from any caught error, the lines behind the protected call read its code and run that chain; of an error without fields nothing can be read, and no handler runs |
| ExceptionHandlers.HandlersAgreeIff | src/plpgsql/transpiler.rs:322-337 | whatever codes and classes PostgreSQL's condition names stand for, the handler that PL/pgSQL runs on a given error is run exactly if, up to each handler, one catches the error's code just when one tests for what is seen of the error |
| ExceptionHandlers.AllErrorsAgreeIff | src/plpgsql/runtime.rs:321-336 | for all errors that is so exactly if no handler catches or tests for anything, since RAISE with any code is seen alike |
| ExceptionHandlers.MappedNamesAgreeIff | src/plpgsql/transpiler.rs:322-337 | handlers with one condition each, whose name the translator maps to the only code it stands for: right on an error exactly if what is seen is its code, or if neither has a handler; on a division by zero the code is seen |
| ExceptionHandlers.MappedNamesAreRight | src/plpgsql/transpiler.rs:322-337 | each of the eight names is mapped to the code that PostgreSQL gives it |
| ExceptionHandlers.SecondConditionIsMissed | src/plpgsql/transpiler.rs:281-285 | a handler with two conditions does not run on the code of the second even if the code is seen |
| ExceptionHandlers.OthersNeverRuns | src/plpgsql/transpiler.rs:297-303 | a handler for OTHERS runs on no code: in lower case the error is raised again, in upper case it is swallowed |
| ExceptionHandlers.UniqueViolationIsMissed | src/plpgsql/runtime.rs:321-336 | a handler for `unique_violation` does not run on error 23505, raised by RAISE or by SQL |
| ExceptionHandlers.OthersAndClassesAreMissed | src/plpgsql/transpiler.rs:279-303 | if a condition is OTHERS or stands for a class of codes, then for some code the wrong handler or none runs even if the code is seen |
| ExceptionHandlers.UndefinedTableIsMissed | src/plpgsql/transpiler.rs:334-335 | on error 42P01 PL/pgSQL runs a handler for `undefined_table`, and the emitted chain does not even if the code is seen |
| ArrayText.ParseJsonElements | src/array/utils.rs:55-102 | the character loop is the fold of the scanner step over the text |
| ArrayText.UnescapeJsonString | src/array/utils.rs:105-132 | the unescaping loop computes the unescaping function |
| ArrayText.SplitPgSubarrays | src/array/utils.rs:168-210 | the depth-counting loop computes the split into subarrays |
| ArrayText.ParsePgElements | src/array/utils.rs:213-259 | the quote-tracking loop computes the elements |
| ArrayJson.JsonEscapeIsPerChar | src/array/types.rs:101-127 | the five chained replacements equal one escape per character |
| ArrayJson.UnescapeInvertsEscape | src/array/utils.rs:105-132 | unescaping undoes escaping on every string (section 7 of RFC 8259) |
| ArrayJson.JoinedIsSplit | src/array/utils.rs:55-102 | the scanner splits joined element texts only at the top-level, unquoted commas |
| ArrayJson.JsonReadsBack | src/array/utils.rs:262-274 | reading the JSON text of any array, at any depth, gives the array with empty lists turned into the empty array |
| ArrayJson.JsonRoundTripIff | src/array/types.rs:101-127 | the JSON round trip is exact precisely for arrays without empty lists |
| ArrayJson.OtherEscapesAreKept | src/array/utils.rs:105-132 | escapes that the printer does not use are not undone |
| ArraySpelling.SpellingIsRead | src/array/utils.rs:6-52 | texts the printers do not write: at any depth, with any white space between the tokens, bare words, printed elements, JSON lists and literals in braces are read as the array that is meant |
| ArraySpelling.OtherTexts | src/array/utils.rs:262-274 | white space is the empty array, and what begins neither with a bracket nor with a brace is refused |
| ArraySpelling.MissingElementIsNull | src/array/utils.rs:37-38 | between two commas there is a NULL |
| ArrayLiteral.LiteralRoundTripIff | src/array/types.rs:73-97 | `parse_array` inverts the PostgreSQL literal exactly if no list is empty, every element is faithful and nested arrays need no quotes |
| ArrayLiteral.FlatReadsBackIff | src/array/utils.rs:213-259 | for one dimension: exactly if every string is non-empty, trim-stable, not `NULL`, and has a backslash only if it is quoted |
| ArrayLiteral.SubarraysAreLost | src/array/utils.rs:168-210 | with quotes inside a nested array, fewer subarrays are found than were printed |
| ArrayLiteral.OpenQuoteIsIgnored | src/array/utils.rs:248-258 | a quote that is never closed is ignored, and does not keep NULL from being one |
| ArrayLiteral.BoundsAreRejected | src/array/utils.rs:262-274 | a literal with bounds is refused as malformed JSON, although the reader of literals would pass over them |
| CopyText.EscapeTextValue | src/copy.rs:837-866 | the escaping loop computes the escaping function |
| CopyText.UnescapeTextValue | src/copy.rs:764-792 | the unescaping loop computes the unescaping function |
| CopyText.UnescapeInvertsEscape | src/copy.rs:764-792 | with backslash as escape character unescaping undoes escaping on every string |
| CopyText.EscapedIsClean | src/copy.rs:837-866 | with any escape character but TAB, CR and LF an escaped value has no raw TAB, CR or LF |
| CopyText.EscapedIsNotNull | src/copy.rs:829-866 | an escaped value never equals the null marker `\N` |
| CopyText.TextReadsBack | src/copy.rs:407-460 | reading what was written, for every table and every null marker without TAB, CR and LF |
| Text.LinesWithoutFinalBreak | src/copy.rs:417-419 | the lines of a text whose last line has no line break: all of them, the last one as it is |
| Text.FinalBreakIsOptionalIff | src/copy.rs:417-419 | for any text, a line break added at its end leaves its lines as they are exactly if it is not empty and does not end in LF or CR |
| CopyText.TextRoundTripIff | src/copy.rs:320-327 | whatever delimiter, escape character and null marker are, the table comes back exactly if every cell is written without delimiter and LF and can be told from its text, and no line is empty or ends in CR |
| CopyText.StandardMarkerSurvival | src/copy.rs:417-439 | with backslash escapes, `\N` and a delimiter that is no part of an escape that means: no row without columns, no lone empty string, and no value with the delimiter in it unless it is TAB |
| CopyText.OtherEscapeComesBackIff | src/copy.rs:764-866 | with any escape character but backslash, TAB, CR and LF, a value comes back exactly if it has no delimiter, LF, TAB, CR or escape character and no backslash pair that the reader undoes, and is not the null marker |
| CopyText.DefaultRoundTripIff | src/copy.rs:102-118 | with the default options, which escape nothing, the table comes back exactly if every row is plain |
| CopyCsv.ParseCsvLine | src/copy.rs:795-826 | the parsing loop computes the fields of a line |
| CopyCsv.BareIff | src/copy.rs:869-892 | a value is written without quotes exactly if it has no delimiter, quote, CR or LF |
| CopyCsv.LineReadsBack | src/copy.rs:869-892 | the parser inverts the formatter on every non-empty row of arbitrary strings (rules 5 to 7 in section 2 of RFC 4180) |
| CopyCsv.HeaderReadsBack | src/copy.rs:298-305 | the header line is read as the column names, in their order |
| CopyCsv.LinesReadBackIff | src/copy.rs:795-826 | it does so for all rows exactly if quote and delimiter differ |
| CopyCsv.CsvRoundTripIff | src/copy.rs:467-533 | with or without header, a table comes back exactly if no value contains LF or equals the null marker, NULLs have the empty marker, and no row is blank |
| CopyBinary.CopyToBinary | src/copy.rs:335-372 | the writing loop produces header, tuples and trailer |
| CopyBinary.ProcessBinaryData | src/copy.rs:536-637 | for any bytes whatsoever the reader terminates, stays inside the data, and returns the rows and error of the format |
| CopyBinary.BinaryRoundTripIff | src/copy.rs:335-372 | a table comes back exactly if it has a row, at most 32767 columns and fields under 2^31 bytes |
| CopyBinary.AcceptedIff | src/copy.rs:536-637 | any bytes are read as given rows without an error exactly if they are a header with any flags and extension, these rows, and an end |
| CopyBinary.FormatExample | src/copy.rs:335-372 | a table of one row, byte by byte as the format lays it out |
| CopyHandling.CopyHandler.StartCopyTo | src/copy.rs:278-379 | sends the table in the format asked for and does not change it |
| CopyHandling.CopyHandler.OnCopyDone | src/copy.rs:692-720 | inserts exactly the rows of the buffered data up to the first error; on success counts them and empties the buffer, on failure keeps it |
| CopyHandling.InsertedIsPrefix | src/copy.rs:407-460 | whatever goes wrong, the table only grows, by a prefix of the rows |
| CopyHandling.InsertedIff | src/copy.rs:407-460 | an import succeeds, with the number of its rows, exactly if all rows have the width of the table and no error is met behind them |
| CopyHandling.FinalBreakIsOptional | src/copy.rs:407-479 | text and CSV data without a line break behind the last row import the same rows as with it |
| CopyHandling.TransferIsExact | src/copy.rs:278-379 | in all three formats and for all options of the text format, what one handler sends is imported by another as the same rows without error, if the rows survive in that format |
| CopyHandling.Transfer | src/copy.rs:676-720 | a whole transfer, in chunks of any size, appends the source table to the target |
| Sqlite.LastMatch | src/handler/transaction.rs:60 | the last savepoint name that matches without regard to ASCII case |
| Sqlite.SameNameIff | src/handler/transaction.rs:60 | names match exactly if their capitals are the same |
| Session.SessionContext.HandleTransactionControl | src/handler/transaction.rs:26-84 | status and savepoint names after each command |
| Session.QueryHandler.ExecuteQuery | src/handler/query.rs:64-130 | one query takes session and SQLite together through one step of the specification |
| Session.StepKeepsInStepIff | src/handler/query.rs:79-110 | a step keeps the two machines together exactly if it is no SAVEPOINT outside a transaction and no refused COMMIT |
| Session.ProperRunsStayInStep | src/handler/query.rs:64-110 | in every such run the session is idle exactly if SQLite has no transaction, and the savepoint names agree position by position |
| Session.ContentsAreFromHistory | src/handler/transaction.rs:44-80 | over every run each open savepoint holds the contents from the moment of its SAVEPOINT, and the base those from its BEGIN |
| Session.RollbackRestoresBegin | src/handler/transaction.rs:44-47 | ROLLBACK restores the contents at the BEGIN |
| Session.RollbackToRestoresSavepoint | src/handler/transaction.rs:55-69 | ROLLBACK TO restores the contents at the most recent matching SAVEPOINT still open and leaves the aborted state, or changes nothing |
| Session.MarksAreCommands | src/handler/transaction.rs:48-54 | the open savepoints of a history are SAVEPOINT commands of it, in order |
| Session.AbortedIsFrozen | src/handler/query.rs:112-130 | once aborted, only COMMIT, ROLLBACK and ROLLBACK TO change the contents or end the aborted state, and every statement is refused; SAVEPOINT and RELEASE still change the stacks of savepoints |
| Session.AnswersIff | src/handler/query.rs:112-130 | after any history: a statement is answered as failed exactly if it was executed and failed, as refused exactly if the transaction is aborted; an unknown savepoint is reported exactly if no open SAVEPOINT of the history matches; everything else is answered as done |
| Session.AnswersTell | src/handler/query.rs:64-130 | what a client may conclude: a statement answered as done has had its effect, a refusal or an unknown savepoint leaves everything as it was, and after a failure no transaction is sound |
| PostgresSession.AgreesWithPostgresIff | src/handler/transaction.rs:26-84 | next to PostgreSQL's own transaction blocks, over whole runs: every moment is as in PostgreSQL exactly if no ROLLBACK TO or RELEASE in a sound transaction names an unknown savepoint, no SAVEPOINT or matching RELEASE is issued in an aborted one, and each COMMIT of an aborted one finds the contents of its BEGIN |
| PostgresSession.FailedRollbackToIsIgnored | src/handler/transaction.rs:60-69 | BEGIN, a statement, ROLLBACK TO an unknown savepoint, COMMIT: PostgreSQL rolls back, and here the work is committed |
| PostgresSession.SavepointAfterFailureIsSet | src/handler/transaction.rs:48-54 | BEGIN, a failing statement, SAVEPOINT: PostgreSQL refuses the savepoint, and here it is set |
| Relations.SortedIsUnique | src/transpiler/dml.rs:95-105 | a sorted sequence of rows is determined by its members |
| DistinctOn.ReconstructDistinctOnSelect | src/transpiler/dml.rs:77-230 | the builder produces the rewritten statement, LIMIT and OFFSET included |
| DistinctOn.RunsAreContiguous | src/transpiler/dml.rs:95-105 | if ORDER BY starts with the DISTINCT ON columns, rows that agree on them are neighbours |
| DistinctOn.DistinctOnIsPreserved | src/transpiler/dml.rs:77-230 | for every table the rewritten statement returns the same rows in the same order, if sort columns are selected and no NULL placement is at stake |
| DistinctOn.RewritingIsRightIff | src/transpiler/dml.rs:754-775 | with any LIMIT and OFFSET, it does so for all tables exactly if every sort column is selected and either nothing is returned (LIMIT 0, or an OFFSET behind the only group) or every effective sort item asks for SQLite's own placement of NULLs |
| DistinctOn.PlainOrderLosesNulls | src/transpiler/dml.rs:754-775 | a plain ascending ORDER BY can pick another row |
| DistinctOn.WithoutOrderIsPreserved | src/transpiler/dml.rs:95-211 | without ORDER BY the rewritten statement returns one row of each group, the first in the table, in the selected columns and cut by the query's own LIMIT and OFFSET, which is a result that PostgreSQL could return |
| SetOperations.ReconstructSelectStmt | src/transpiler/dml.rs:335-420 | the builder produces the token text of the tree |
| SetOperations.CompoundReadsBack | src/transpiler/dml.rs:335-420 | SQLite's grammar reads every printed compound back, and in one way only |
| SetOperations.TextParses | src/transpiler/dml.rs:348-372 | the emitted text of every tree is read, as the intended compound |
| SetOperations.SetOperationsArePreserved | src/transpiler/dml.rs:335-420 | for every supported tree, with ORDER BY, LIMIT and OFFSET at any level, the text read left to right yields the rows of the tree, whatever the operators compute |
| SetOperations.AllIsPreservedIff | src/transpiler/dml.rs:338-343 | a single operator is preserved for all operands exactly if it is not INTERSECT ALL or EXCEPT ALL |
| SetOperations.ValuesOnTheRightIff | src/transpiler/dml.rs:20-75 | in a subquery, VALUES on the right whose own clauses are harmless is preserved exactly if it has one row, the operator is UNION ALL, or those clauses get it wrapped |
| SetOperations.ValuesClausesIff | src/transpiler/dml.rs:663-697 | VALUES, which loses its ORDER BY, LIMIT and OFFSET, is preserved for all meanings of its rows exactly if there is no OFFSET, no LIMIT below the number of rows, and nothing to sort |
| SetOperations.SelectIsPreservedIff | src/transpiler/dml.rs:754-775 | a SELECT with any ORDER BY, LIMIT and OFFSET is preserved for all its results exactly if LIMIT is 0 or every effective sort item asks for SQLite's own placement of NULLs |
| SetOperations.OperatorIsPreservedIff | src/transpiler/dml.rs:754-775 | the same for the clauses behind UNION, UNION ALL, INTERSECT and EXCEPT |
| Inlining.Inline | src/transpiler/func.rs:43-57 | the reverse loop performs the replacements from $n down to $1 |
| Inlining.ReplaceIsStep | src/transpiler/func.rs:50-57 | replacing $m is one step of the substitution: it never touches $m inside a longer number or an argument |
| Inlining.InliningIsSubstitution | src/transpiler/func.rs:43-57 | for clean arguments and a sound body, it is simultaneous substitution, for any number of arguments |
| Inlining.InliningIsSubstitutionIff | src/transpiler/func.rs:43-57 | given the arguments, that holds for all sound bodies exactly if none contains a parameter that is replaced after it |
| Inlining.InlinesRightlyIff | src/transpiler/func.rs:50-57 | with clean arguments a body is inlined rightly exactly if each of its parameters is one of $1 to $n as printed, or means none of these and does not begin with one |
| Inlining.BodyInlinesRightlyIff | src/transpiler/func.rs:50-57 | so whether a body is inlined rightly for all clean arguments is a condition on the body and their number only |
| Ranges.Canonicalize | src/range.rs:109-165 | the step-by-step update of the bounds computes the canonical form |
| Ranges.CanonicalDenotesTheSameIff | src/range.rs:168-189 | the canonical form denotes the same integers exactly if no increment overflows, or in one harmless way |
| Ranges.EmptyIff | src/range.rs:137-142 | Empty is the canonical form of exactly the ranges without members |
| Ranges.EqualIffSameBounds | src/range.rs:109-165 | two ranges denote the same integers exactly if their canonical forms have the same bounds |
| Ranges.PrintThenParse | src/range.rs:209-251 | a canonical value survives printing and parsing; any other comes back canonical |
| Ranges.SpacedLiteralIsRead | src/range.rs:209-251 | a literal with any white space around its brackets and bounds is read as its bounds |
| Ranges.RejectedIff | src/range.rs:209-232 | a text is refused exactly if it is neither the word for the empty range nor two parts with a comma between brackets |
| Ranges.MalformedIsRefused | src/range.rs:259-472 | every operator answers with the error of its first malformed operand |
| Ranges.ContainsElemIff | src/range.rs:259-293 | contains-element is membership |
| Ranges.OtherElementsAreZero | src/range.rs:259-293 | an element that is no integer is taken for 0 |
| Ranges.ContainsIff | src/range.rs:297-342 | contains is the superset relation |
| Ranges.OverlapsIff | src/range.rs:352-396 | overlaps means that the intersection is not empty |
| Ranges.LeftIff | src/range.rs:400-425 | left-of means: both non-empty and every element below every other |
| Ranges.AdjacentIff | src/range.rs:435-472 | adjacent means: both non-empty, disjoint, and their union an interval |
| Statistics.VarState.Add | src/stats.rs:32-38 | one step of the recurrence on the three fields |
| Statistics.Aggregate | src/stats.rs:63-83 | the aggregate over a column is the recurrence over its values that are not NULL |
| Statistics.WelfordIsClosedForm | src/stats.rs:32-38 | after any values: mean times count is their sum, and m2 the sum of squared distances from the mean |
| Statistics.VarianceIsClosedForm | src/stats.rs:41-56 | both variances equal their definitions, are not negative, and exist exactly from one and two values on |
| Statistics.OrderDoesNotMatter | src/stats.rs:32-38 | the state depends on the values only, not on their order |
| Statistics.ZeroVarianceIff | src/stats.rs:41-47 | the variance is zero exactly if all values are equal |
| Vectors.CauchySchwarz | src/vector.rs:63-91 | the squared inner product is at most the product of the squared lengths |
| Vectors.CosineIsExact | src/vector.rs:63-91 | the clamp never acts, the distance lies between 0 and 2, and only zero vectors and different dimensions have none |
| Vectors.ScalingKeepsCosine | src/vector.rs:63-91 | positive scaling leaves the cosine distance unchanged |
| Vectors.ZeroCosineIff | src/vector.rs:63-91 | the cosine distance is 0 exactly between vectors of the same direction |
| Vectors.TriangleInequality | src/vector.rs:36-57 | the Euclidean distance satisfies the triangle inequality |
| Vectors.DistanceIsMetric | src/vector.rs:36-57 | it is not negative, symmetric, and zero exactly between equal vectors |
| Vectors.OneCoordinateMoved | src/vector.rs:36-57 | moving one coordinate by d moves a vector by the absolute value of d |

Smaller facts, a step or two from the definitions: `Session.ReleaseChangesNothing`, `Session.AbortedOnlyByFailure`,
`Session.CommittedOnlyByCommit`, `Session.IdleSavepointLosesStatement`, `Session.RefusedCommitIsUndone`,
`DistinctOn.LimitIsPreserved`, `Ranges.CanonicalIsIdempotent`, `Ranges.OtherBoundsAreKept`,
`Ranges.EmptyIsReadInAnyCase`, `Decimal.PlusIsRead` and `Vectors.DimensionsMustAgree`.

## Where the code departs from PostgreSQL or its own documentation

The model follows the code; each point is a lemma or a condition in one.

- FOUND is neither declared nor set: reading it gives nil, or what an earlier call assigned to the global variable.
- FOR ... REVERSE swaps its bounds in the emitted header, so the loop usually runs zero times.
- A block with an EXCEPTION section always makes the Lua function return after its body.
- A function that must return a value and reaches its end without RETURN fails in PL/pgSQL; compiled it returns NULL.
- A set-returning function without RETURN NEXT in its text hands out NULL or a value instead of a set.
- A handler is tested for its first condition only, and for one code. Names other than eight are compared with the code
  as they are, classes catch nothing, and a handler for OTHERS never runs, although functions/PLPGSQL_STATUS.md lists it
  as a catch-all: spelled in lower case, as PL/pgSQL's scanner delivers it, the error is raised again, and in upper case
  it would be swallowed.
- Only the error of a division by zero carries its code. The error that RAISE (with ERRCODE or without) or a failing SQL
  statement raises has none that the handlers could read: they are tested against P0001, or the attempt to read it fails
  and no handler runs.
- RETURN NEXT of NULL leaves no row, and RETURN NEXT in an exception handler does not make the function return a set.
- CASE without a matching WHEN and without ELSE does nothing instead of failing.
- The default COPY text options use TAB as escape character, which switches escaping off; a value with
  a TAB then comes back as two columns (`TabSplitsDefaultValue`).
- Text COPY escapes TAB, whatever the delimiter is; any other delimiter inside a value splits it. With an escape
  character other than backslash the writer uses that character and the reader undoes backslashes.
- A binary export of an empty table has no header and is refused by the import.
- CSV data is split into lines before quotes are read, so a quoted line break ends a row.
- Quoted elements inside nested array literals are not split off, literals with bounds are refused, and of JSON's escapes
  `\/` and `\u` are left as they are.
- COMMIT in an aborted transaction commits the work done before the failure.
- A failed ROLLBACK TO or RELEASE does not abort the transaction, and an aborted transaction accepts SAVEPOINT and
  RELEASE.
- Sort items lose NULLS FIRST and NULLS LAST, and SQLite's default placement is the opposite of PostgreSQL's.
- INTERSECT ALL and EXCEPT ALL lose ALL; VALUES on the right of an operator is not wrapped inside subqueries, and loses
  its own ORDER BY and LIMIT.
- A parameter beyond the arguments of an inlined function is replaced in part if it begins with one of them ($10 after
  $1, `MissingParameter`), and $01 is not replaced.
- An increment at the largest 64-bit integer wraps around in a range bound (as in a release build).
- A bound or an element that is no integer is no error: it counts as 0 where numbers are compared.
- A range whose lower bound is greater than its upper bound, as `[5,3]`, is an error in PostgreSQL and empty here.

## Left out

- TranslationCorrect.FunctionCorrect: expression texts are opaque; the rewriting of expression strings (src/plpgsql/transpiler.rs:694-802) is represented by the assumption that both texts evaluate alike.
- TranslationCorrect.StmtCorrect: FOR REVERSE with unequal bounds, blocks with handlers, CASE without ELSE, FOR over queries, RETURN inside a set-returning body, SQL statements, RAISE, cursors, labels and CONTINUE are not in the supported statements; the BY step of FOR is ignored by the code and absent from the model; values are not coerced to the declared types of variables, parameters and results.
- CompiledText.CompiledTextCorrect: the datums before `found` are taken to be the IN parameters, one per argument (OUT parameters are not modelled); declarations of nested blocks are evaluated once, at the start of the call, as the generated code does; calls may find global variables of earlier calls, but none named like a variable of the function other than FOUND; the rows are those of the marked table that the Lua function returns, which src/plpgsql/runtime.rs:105-114 replaces by the text `SETOF result`, as it turns booleans into 0 and 1; integer arguments outside 32 bits, which src/plpgsql/runtime.rs:425 wraps, are passed as they are.
- TranslationLimits.ProtectedBlockAgreesIffBodyReturns: bodies that raise an error (the protected call itself is not executed; what follows from a caught error is `FailureBranchRuns`) and bodies left by EXIT, which Lua does not load (`LoadsIffTidy`).
- ExceptionHandlers.HandlersAgreeIff: PostgreSQL's table of condition names is any table; whether Lua's binding hands a host error to the protected call as its message or as an object without fields is a parameter; a division by zero whose expression does not come out as an infinity raises nothing in Lua and is not an error here.
- LuaText.TextReadsBack: statements and expressions with line breaks, commas inside the bounds of a FOR, and copied statements that look like another line are not read back; expressions are taken over as they are, not parsed.
- LuaLoads.LoadsIffTidy: Luau's rules for blocks, `break` and `return` only; not its limits or the syntax of expressions.
- ArrayJson.JsonRoundTripIff: an element that is a lone quote makes the code slice out of range; the model has an outcome for it (`Panics`), which no printed array reaches.
- CopyHandling.CopyHandler.OnCopyDone: inserting is appending to a table of a given width; SQL text, column types, constraints and rollback of partial imports are not modelled; UTF-8 is any encoding whose decoding undoes it; numbers inside error messages are dropped.
- Session.QueryHandler.ExecuteQuery: commands arrive parsed; savepoint names are plain identifiers; SHOW, DROP FUNCTION and SET search_path, which are dispatched before the check for the aborted state, are not modelled; a statement is any function on the contents that leaves the transaction as it is (no error after which SQLite rolls back by itself).
- PostgresSession.AgreesWithPostgresIff: a statement is taken to do the same to the contents in both databases, and to fail in both or in neither; the tags and errors sent to the client are not compared.
- DistinctOn.RewritingIsRightIff: a SELECT without DISTINCT ON columns is not rewritten (src/transpiler/dml.rs:78-83), so the case of an empty key list is proved of a rewriting that is never emitted.
- DistinctOn.DistinctOnIsPreserved: target list, DISTINCT ON and ORDER BY are plain unqualified columns, none called `__rn`; WHERE, GROUP BY and FROM are part of the given table; rows that compare equal are taken in table order by both databases; `SELECT *`, WITH, PostgreSQL's rejection of an ORDER BY that does not start with the keys, and an ORDER BY shorter than the keys, which it accepts, are not modelled.
- SetOperations.SetOperationsArePreserved: SELECT bodies are opaque; `select * from (...)` is taken to keep the order of its subquery; operand rows are taken under the result's column names; WITH is not modelled.
- Inlining.InliningIsSubstitution: a dollar sign with digits inside a string literal, a comment or a name (`a$1`) counts as a parameter, as in the code; re-parsing of the result and named parameters are not modelled.
- Ranges.Canonicalize: int4range and int8range only; date, numeric and timestamp ranges (calendar library, string comparison) are not modelled; texts that are no integers take part in `CanonicalIsIdempotent` only.
- Statistics.WelfordIsClosedForm: exact reals instead of floating point; standard deviations (square roots of the variances) are not modelled.
- Vectors.CosineIsExact: parsed vectors over exact reals, and any square root function; parsing, L1, Hamming and Jaccard distances and vector arithmetic are not modelled.
- The wire protocol, catalogs, type mapping, row-level security, full-text search, geometric types and SHOW/SET are input and output, lookup tables or heuristics on text.
- Recursive CTE limits, RIGHT and FULL joins, INSERT, UPDATE and DELETE rewriting are not modelled.
