# Rowset, modelled in Dafny

Rowset runs people's SQL against their databases behind a guard. This project models the parts of it whose
correctness is hardest to see, and proves what they are for.

- **The SQL guard.** A lexer for four dialects, a statement splitter that knows routine bodies, a folder that decides
  WHERE clauses that are always true, a reader of single statements, a merger of scripts, and the guardrail's
  decision. One `char` is one byte. The theorems are semantic: splitting agrees with lexing, the folder is sound, a
  script is judged no more leniently than any statement of it that stays whole when it is sent alone.
- **Row backup and restore.** Which statements are backed up, what is read, which undo statements are planned, what
  they do to the table and how they are written as SQL or CQL. Tables are sets of rows over a key. The theorems say
  that undo undoes, and that the generated text reads back through the guard's own lexer, splitter, classifier and
  policy for all names and values.
- **Protocols under locks.** The activity writer, the pool manager, the schema cache, the transaction registry and the
  scheduler are state machines whose steps are the program's critical sections; the theorems hold after every
  interleaving. Beside each machine a class performs its sections in place, every method proved to be the step.
- **The audit chain, the statement caches and the schedule arithmetic.**

`dafny verify dfyconfig.toml` checks everything. One module per file; `Suffix`, `Source`, `Routine` and `Verbs` say of the text and
of its words what the lexer, the splitter and the reader do; `Formula`, `FormulaText`, `FormulaTruth` and
`FormulaCanonical` are the chain from the text of a WHERE clause to the truth of what is known of it, and `Render`,
`RestoreText`, `ReadBack`, `RestoreVerdict`, `Sentences` and `CassandraRestore` are the chain of lemmas from text to verdict.

## What the code does not promise

Where a property one would expect is false of the code, the code is modelled as it is and the condition is exact.

- Splitting and lexing disagree on a piece exactly when trimming takes a non-ASCII space (U+0085, U+00A0, ...) that the
  lexer reads as part of a word: `SplitAgreement.SplittingAgreesWithLexing`, `SplitAgreement.NoBreakSpaceIsLost`.
- A piece may be cut again when it is split alone, because the test for a routine definition looks past the semicolon:
  `Resplit.PieceIsOneStatement`, `ResplitExample.PieceCanSplitAgain`. Such a statement can be denied alone and pass in
  the script: `Policy.ScriptIsNotMoreLenient`, `Policy.RefusedWheneverExactly`, `ResplitExample.ScriptCanBeMoreLenient`.
- A routine body with END CASE, with an END before a new IF, LOOP, WHILE or REPEAT, or with a name spelled like BEGIN or CASE
  swallows what follows it, and a name spelled END cuts it short: `Routine.DefinitionEnds`, `Routine.EndCaseSwallows`,
  `Routine.EndBeforeIfSwallows`, `Routine.NamedEndCuts`.
- A script can be judged harder than each of its statements: `Policy.ScriptDeniedExactly`, `SelectExample.ScriptIsJudgedHarder`.
- The folder does not decide every comparison of literals: a literal the lexer cuts, like 1.5 or -1, leaves it unknown:
  `FormulaCanonical.FolderDecidesGround`, `FormulaExample.SplitLiteralIsUndecided`.
- The folder compares spellings, so it misjudges columns whose names read as numbers (inf, nan), strings that differ only
  in case and numbers spelled in two ways: `FormulaTruth.EqualityAnswerIsRightExactlyWhenFaithful`,
  `FormulaTruth.OrderAnswerIsRightExactlyWhenFaithful`, `FormulaExample.NumberLikeColumnIsMisjudged`.
- The search for the WHERE a backup reads its rows by, and for the clause that ends it, takes quoted names, names after
  a dot and unreserved column names for keywords: `BackupTarget.OwnClausesExactly`, `BackupTarget.ReservedWordsExactly`,
  `BackupExample.QuotedNameMisleads`, `DeleteExample.DottedNameMisleads`, `DeleteExample.PlainNameMisleads`.
- The backup reads the lower-cased table name, and the undo leaves out columns that differ from a generated, key or identity
  column in case alone: `BackupTable.ReadsOwnTableExactly`, `RestoreExact.WrittenBackByName`, `RestoreExact.TwinIsNotWrittenBack`.
- Restoring an UPDATE that moved keys is not exact when an identity column outside the key tells the rows apart:
  `RestoreExact.UpdateRestoreIsExact`, `RestoreExact.SwappedKeysExample`.
- The undo of a DELETE writes OVERRIDING SYSTEM VALUE for the engine named postgres only, so on its kin a table with an ALWAYS
  identity column is not restored: `RestoreIdentity.DeleteRestoreRuns`.
- Invalidating a connection whose id holds a bar can drop the entries of another: `Keys.KeysBelongById`, `Keys.BarsMislead`.
- A transaction handle's Commit after a rollback reports no error; the state check before it rules exactly that out:
  `Transactions.HandleReportsTrulyExactly`, `Transactions.BothEndsAreReached`.
- A request that loses the race for a transaction another request commits is told that it was lost or rolled back:
  `Transactions.DiscardIsToldTrulyExactly`, `Transactions.OtherClaimCanMislead`.
- A Cassandra restore can stop between batches, adds rows that were deleted meanwhile, and mixes up columns that differ in
  case alone: `CassandraExact.FailedRestoreIsPartial`, `CassandraExact.RestoreOnAnyTable`, `CassandraExact.RowIsUndoneExactly`.
- The audit hash joins fields with a byte they may hold, and does not cover the version: `AuditFields.FieldsFixedExactly`,
  `AuditFields.BarInSqlMovesUnseen`, `AuditFields.VersionOneAbsorbs`.

## Model

| member | source | states |
|---|---|---|
| Lexer.LexDialect | rowset-core/sqlguard/parser.go:917-1065 | The single scan with its depth and comment counters yields exactly the token list `Lex` defines, or the same error: an unclosed comment, string, name or dollar quote, or an unbalanced parenthesis. |
| Lexer.ScanBlock | rowset-core/sqlguard/parser.go:948-968 | Finds the end of a block comment, nested or not by dialect, or that it never ends. |
| Lexer.ScanString | rowset-core/sqlguard/parser.go:987-1011 | Stops after the first quote that is neither doubled nor escaped. |
| Lexer.ScanQuoted | rowset-core/sqlguard/parser.go:1012-1036 | Stops at the first closer of a quoted name that is not doubled. |
| Window.TokensInOrder | rowset-core/sqlguard/parser.go:917-1065 | Tokens come in order, do not overlap, are not empty, and each holds the bytes it spans. |
| Window.LexWindow | rowset-core/sqlguard/parser.go:917-1065 | Cutting a text at a top-level token that is no parenthesis and lexing the cut alone gives the tokens before the cut, moved. |
| Suffix.LexSuffix | rowset-core/sqlguard/parser.go:917-1065 | In every dialect, what follows any place of a text lexes as it would alone with the parentheses and executable comments open there, moved; errors included. |
| Source.LexReadsSource | rowset-core/sqlguard/parser.go:917-1114 | Text spelled from words, quoted names, literals, marks, white space, line comments, nested and flat block comments, the marks of executable comments, dollar quotes and bare words, each characterised by its own bytes and the dialect, lexes to exactly the items' tokens, and whatever follows it lexes as it would alone. Comments end at their newline or their own closer, a dollar quote at the first repetition of its tag. |
| Source.CommentsAreBlank | rowset-core/sqlguard/parser.go:925-974 | At any boundary between lexemes a comment does to all that follows what a space does. |
| Source.LeadingLineComment | rowset-core/sqlguard/parser.go:925-936 | A text lexes after a line comment and its newline as it does alone, moved by their length, and a line comment at the end is nothing. |
| Source.UnclosedComment | rowset-core/sqlguard/parser.go:948-968 | A block comment without its closer is an error in every dialect. |
| Source.UnclosedDollar | rowset-core/sqlguard/parser.go:976-986 | A dollar quote whose tag does not come again is an error in every dialect. |
| Bytes.TrimTo | rowset-core/sqlguard/parser.go:839-881 | Trimming takes whole white-space runes off the end and keeps at least the given start. |
| Bytes.SpacesByCodePoint | rowset-core/sqlguard/parser.go:839-881 | The byte patterns that trimming takes for white space are the UTF-8 encodings of Unicode's white-space code points, and no others. |
| Splitter.SplitStatements | rowset-core/sqlguard/parser.go:839-881 | The loop with its routine and block counters cuts the text into exactly the trimmed, non-empty pieces of `Split`. |
| Routine.DefinitionEnds | rowset-core/sqlguard/parser.go:839-910 | A routine definition of any nesting of BEGIN and CASE blocks, CASE statements, IF, LOOP, WHILE and REPEAT and BEGIN TRANSACTION never ends before the semicolon after it, and ends there if and only if it has no CASE statement (END CASE), no block whose END is followed by the word of a new IF, LOOP, WHILE or REPEAT, and no name spelled like a word that opens a block. |
| Routine.DefinitionIsOnePiece | rowset-core/sqlguard/parser.go:839-881 | Then the text of the definition, with whatever comments and literals it has, is returned whole, and what follows its semicolon is split as it would be alone. |
| Routine.DefinitionIsKept | rowset-core/sqlguard/parser.go:839-881 | It is a piece of its own, trimmed, when its CREATE is a bare word. |
| Routine.RoutineByHeader | rowset-core/sqlguard/parser.go:892-910 | A statement is a routine definition exactly when it is CREATE, at most fourteen words at depth 0 that name no other object, and PROCEDURE, PROC, FUNCTION, TRIGGER or EVENT. |
| Routine.OthersEndAtSemicolon | rowset-core/sqlguard/parser.go:839-881 | Every other statement ends at its first semicolon outside parentheses. |
| Routine.CaseInBodyStaysInside | rowset-core/sqlguard/parser.go:850-865 | The semicolons after a CASE expression in a body are inside the definition, whatever follows. |
| Routine.EndCaseSwallows | rowset-core/sqlguard/parser.go:850-865 | A body with END CASE is not ended by the semicolon after it: what follows joins the definition. |
| Routine.EndBeforeIfSwallows | rowset-core/sqlguard/parser.go:850-865 | So with a block whose END is followed by a new IF. |
| Routine.NamedEndCuts | rowset-core/sqlguard/parser.go:850-865 | A quoted column called end closes a block, and the body is cut at the next semicolon. |
| SplitAgreement.SplittingAgreesWithLexing | rowset-core/sqlguard/parser.go:839-881 | PostgreSQL and SQL Server: a piece lexes, alone, to its own share of the whole text's tokens with the same depths if and only if trimming cut no byte of a token; when that holds for all pieces, the pieces' tokens with the separating semicolons are the whole token list. |
| SplitAgreement.AsciiScriptsAgree | rowset-core/sqlguard/parser.go:839-881 | On ASCII text every piece keeps its tokens and the pieces rejoin to the whole token list. |
| SplitAgreement.NoBreakSpaceIsLost | rowset-core/sqlguard/parser.go:839-881 | A no-break space is a word to the lexer and white space to the trimming, so this statement is lost: the exception the equivalence above names does occur. |
| SplitAgreement.TrimAgrees | rowset-core/sqlguard/parser.go:839-881 | Lexing a trimmed text gives the tokens of the untrimmed one exactly when no token reaches into what was trimmed. |
| Resplit.TrimTwice | rowset-core/sqlguard/parser.go:839-881 | Trimming a trimmed text changes nothing. |
| Resplit.RoutineGrows | rowset-core/sqlguard/parser.go:892-910 | Seeing more of a script can turn a statement into a routine definition but never back. |
| Resplit.SplitWhole | rowset-core/sqlguard/parser.go:839-881 | A trimmed text that lexes is returned whole if and only if no token of it ends a statement before its last. |
| Resplit.PieceIsOneStatement | rowset-core/sqlguard/parser.go:839-910 | A piece that is split again stays whole if and only if it is a routine definition by its own words or holds no semicolon outside parentheses. |
| ResplitExample.PieceCanSplitAgain | rowset-core/sqlguard/parser.go:839-910 | A script whose first piece is cut again when it is split alone, because a word after the semicolon made it a routine. |
| Folder.ConstantBoolean | rowset-core/sqlguard/parser.go:500-596 | The recursion on token slices, with its parenthesis-stripping loop, answers exactly what `Fold` says, and terminates on slice length. |
| Folder.FoldOver | rowset-core/sqlguard/parser.go:512-536 | The loop over the operands of one operator, with its early exit, is three-valued AND and OR over the folded operands. |
| Formula.FolderReadsFormula | rowset-core/sqlguard/parser.go:500-616 | For every formula of truth values, NOT, AND, OR, parentheses and comparisons, folding its printed tokens is evaluating it in three values, so the slicing at top-level operators respects precedence; a comparison with an operand of several tokens (`1.5`, `-1`, `t.a`) says nothing. |
| FormulaText.FormulaLexes | rowset-core/sqlguard/parser.go:917-1065 | The text of a formula lexes, in every dialect and with every operand the lexer may cut into several tokens, to exactly its printed tokens, up to their positions. |
| FormulaText.FolderReadsText | rowset-core/sqlguard/parser.go:500-616 | What the folder makes of the lexed text of a formula is its three-valued evaluation. |
| Formula.FoldJoin | rowset-core/sqlguard/parser.go:512-536 | Folding two slices joined by an operator combines their folds. |
| Formula.OnlyParenWraps | rowset-core/sqlguard/parser.go:605-616 | Of printed formulas only a parenthesised one is stripped. |
| FormulaCanonical.FolderIsSound | rowset-core/sqlguard/parser.go:500-603 | A known answer for a lexed WHERE clause is its truth on every row, if its integers have no leading zeros and at most fifteen digits, its strings and delimited names are in lower case, its columns do not read as numbers and no integer is compared with a string; the database compares integers by value and strings by content. |
| FormulaCanonical.CanonicalIsFaithful | rowset-core/sqlguard/parser.go:553-603 | Such spellings compare in every such database as the guard compares them. |
| FormulaExample.PlainComparesByValue | rowset-core/sqlguard/parser.go:553-603 | There is such a database: integers by value before strings by their bytes. |
| FormulaExample.PlainIsUnbounded | rowset-core/sqlguard/parser.go:553-603 | In the same database every value has one below it and one above, as the theorem on order comparisons asks. |
| FormulaExample.ReaderReadsNumbers | rowset-core/sqlguard/parser.go:598-603 | There is a number reader with what the theorems ask of Go's. |
| FormulaCanonical.FolderDecidesGround | rowset-core/sqlguard/parser.go:500-603 | Without columns the answer is the truth exactly when the comparisons of two one-token literals, strings by equality or numbers, settle the formula, and unknown otherwise. |
| FormulaTruth.GroundComparison | rowset-core/sqlguard/parser.go:550-603 | A comparison of two literals is decided if and only if each is one token and, for an order, both are numbers. |
| FormulaTruth.GroundIsKnownExactly | rowset-core/sqlguard/parser.go:500-603 | The same in three values, for any spelling that is faithful. |
| FormulaExample.SplitLiteralIsUndecided | rowset-core/sqlguard/parser.go:550-580 | The clause `1.5 = 1.5` lexes to seven tokens and is not decided, though it holds on every row. |
| FormulaTruth.EqualityAnswerIsRightExactlyWhenFaithful | rowset-core/sqlguard/parser.go:553-580 | An equality answer is right on every row if and only if the two spellings compare in the database as the guard compares them. |
| FormulaTruth.OrderAnswerIsRightExactlyWhenFaithful | rowset-core/sqlguard/parser.go:566-596 | The same for each order comparison, of literals and of columns: two sides that read as numbers are judged rightly only if both are literals that compare as their floats do, or both are the same column. |
| FormulaExample.NumberLikeColumnIsMisjudged | rowset-core/sqlguard/parser.go:566-603 | The clauses `inf > 5` and `inf = 5` on a column called inf are folded to true and to false, though rows decide both. |
| Classifier.ComputeWritesHaveEffectiveWhere | rowset-core/sqlguard/parser.go:767-802 | The scan finds, for every UPDATE, MERGE and DELETE in the statement, a WHERE of its own depth that is not true on every row, or reports that one is missing. |
| Classifier.FindWhere | rowset-core/sqlguard/parser.go:767-802 | The WHERE that belongs to a write: the first at its depth before its parenthesis closes. |
| Verbs.WithIsItsWrites | rowset-core/sqlguard/parser.go:618-642 | A WITH statement is a write, of the kind of its last write word that no FOR precedes, if and only if it has one, and a plain read otherwise; its command is the last operation outside parentheses. |
| Verbs.BlockIsItsRiskiest | rowset-core/sqlguard/parser.go:647-751 | BEGIN, IF, WHILE, ELSE and an EXPLAIN that names ANALYZE are administration if and only if an administrative word occurs inside, writes if and only if that or a write word does, and of the first write's kind. |
| Verbs.DropsByWords | rowset-core/sqlguard/parser.go:285-330 | A statement counts as DROP, or TRUNCATE, exactly when it opens with the word, or is such a block or EXPLAIN with the word inside. |
| Verbs.HarmlessExactly | rowset-core/sqlguard/parser.go:285-413 | A statement is read as a read or as session work if and only if its words make it one: the verb, no write or administrative word in a WITH or a block, no INTO that creates something, or a write of no table into a variable. |
| Verbs.ReadOnlyRoleRuns | rowset-core/internal/policy/policy.go:46-114 | Of single statements, a read-only role that was not cleared is denied exactly those that are not harmless by their words, and a SELECT from a table without WHERE where that is forbidden. |
| Verbs.DataChangingWithIsDenied | rowset-core/sqlguard/parser.go:618-642 | A WITH that changes a table is read as its last write and denied to a read-only role, whatever it selects in the end. |
| Verbs.WhereByWords | rowset-core/sqlguard/parser.go:340-352 | Of statements that are no UPDATE or DELETE the first unquoted WHERE outside parentheses counts; a SELECT's counts unless what stands before the next clause folds to true. |
| Verbs.NoWhereByWords | rowset-core/sqlguard/parser.go:340-352 | Without such a WHERE such a statement has none. |
| Verbs.WriteWhereByWords | rowset-core/sqlguard/parser.go:767-802 | The WHERE of an UPDATE, MERGE or DELETE is the first at its depth before its parenthesis closes, and limits it unless what stands between it and the next clause of that depth folds to true. |
| Verbs.NoWriteWhereByWords | rowset-core/sqlguard/parser.go:767-802 | The writes of rows are UPDATE, MERGE and DELETE, unquoted, that no unquoted FOR precedes; one without such a WHERE is limited by none. |
| Policy.ParseUncached | rowset-core/sqlguard/parser.go:269-281 | One statement is classified, several are merged, and a text that does not split or holds no statement is unrecognised. |
| Script.MergeScript | rowset-core/sqlguard/parser.go:180-267 | The merge by loops has the highest-ranked kind, the union of flags and tables, a WHERE only if no part of the deciding kind lacks one, and records every other kind that lacks one. |
| Policy.TopKindIsHighest | rowset-core/sqlguard/parser.go:166-173 | The deciding kind ranks no lower than any part's and is some part's. |
| Policy.LacksWhereExactly | rowset-core/sqlguard/parser.go:87-99 | For updates and deletes a script lacks a WHERE exactly when some part of that kind does. |
| Policy.ScriptDeniedExactly | rowset-core/internal/policy/policy.go:46-114 | Under any settings a script is denied if and only if scripts are forbidden, one of its statements is denied alone, or a SELECT without WHERE and without tables stands beside a read of a table. |
| Policy.ScriptIsNotMoreLenient | rowset-core/internal/policy/policy.go:46-114 | A statement of a script that stays whole when its text is parsed alone is denied alone only under settings that deny the script. |
| Policy.StaysWholeByWords | rowset-core/sqlguard/parser.go:839-910 | PostgreSQL and SQL Server: a statement of a script stays whole if and only if it is a routine definition by its own words or holds no semicolon outside parentheses. |
| Policy.ScriptTextDeniedExactly | rowset-core/internal/policy/policy.go:46-114 | The equivalence above for the text of a script and what its pieces are read as. |
| Policy.RefusedWheneverExactly | rowset-core/internal/policy/policy.go:46-114 | One reading is denied under all settings that deny another if and only if every charge against the other is one against it. |
| ResplitExample.ScriptCanBeMoreLenient | rowset-core/internal/policy/policy.go:46-114 | A script that the default settings allow although its first statement, sent alone, is cut again and denied for the DROP in it. |
| Policy.ScriptCanBeJudgedHarder | rowset-core/internal/policy/policy.go:46-114 | Two statements, each allowed alone, whose script is denied: the third case of the equivalence occurs. |
| SelectExample.ScriptIsJudgedHarder | rowset-core/internal/policy/policy.go:46-114 | In every dialect: SELECT 1;SELECT a FROM t WHERE t.id = 1 is denied while SELECTs without WHERE are, though each statement sent alone is allowed. |
| Policy.OrderDoesNotMatter | rowset-core/internal/policy/policy.go:46-114 | Two scripts of the same statements in any order get the same decision. |
| Policy.OrderCanChangeTheKind | rowset-core/sqlguard/parser.go:166-173 | The merged kind does depend on the order, so the theorem above is not a theorem about equal scripts. |
| BackupTarget.DecideTarget | rowset-core/internal/api/rowbackup.go:37-107 | The loops over top-level tokens accept exactly the single-table writes of `BackupTargetOf` and cut out the same condition text. |
| BackupTarget.BackedUpExactly | rowset-core/internal/api/rowbackup.go:37-110 | By the words outside parentheses: a statement is backed up if and only if it writes one table, nothing is joined, an UPDATE has no FROM and a DELETE one as its second word, and it has a WHERE with a condition, or is a DELETE with no WHERE, ORDER, LIMIT, RETURNING, OPTION or USING. |
| BackupTarget.ConditionByWords | rowset-core/internal/api/rowbackup.go:94-105 | The condition reaches from the first WHERE to the first ORDER, LIMIT, RETURNING or OPTION after it, or to the end. |
| BackupTarget.ConditionReadsAlike | rowset-core/internal/api/rowbackup.go:37-107 | PostgreSQL and SQL Server: the condition handed to the backup's SELECT lexes to exactly the tokens between what the search took for the WHERE and for its end, if and only if trimming cut none of them. |
| BackupTarget.OwnClausesExactly | rowset-core/internal/api/rowbackup.go:58-97 | Given where the statement's WHERE and the clause after its condition really are: the condition handed over is the trimmed text between what the search takes for them, and the search finds them if and only if, before each, no top-level token in any guise (quoted, after a dot, or bare) is spelled like what is searched for. |
| BackupTarget.ReservedWordsExactly | rowset-core/internal/api/rowbackup.go:58-97 | Where the searched words are reserved, the search is right if and only if no quoted name and no name after a dot misleads it. |
| BackupTarget.BacksUpOwnCondition | rowset-core/internal/api/rowbackup.go:37-107 | PostgreSQL and SQL Server: an ASCII statement whose condition does not end in a semicolon is backed up by its own condition, tokens of its real WHERE up to its real end, when nothing misleads the search. |
| BackupExample.QuotedNameMisleads | rowset-core/internal/api/rowbackup.go:58-97 | UPDATE t SET "where"=1 WHERE id=2 is backed up by the condition =1 WHERE id=2: the quoted column is taken for the WHERE. |
| DeleteExample.DottedNameMisleads | rowset-core/internal/api/rowbackup.go:58-97 | DELETE FROM t WHERE t.order = 5 is backed up by the condition t. in every dialect: the column after the dot is taken for an ORDER BY. |
| DeleteExample.PlainNameMisleads | rowset-core/internal/api/rowbackup.go:58-97 | DELETE FROM t WHERE id = 1 AND limit > 100 is backed up by the condition id = 1 AND: a column that needs no quotes in SQL Server is taken for a LIMIT. |
| BackupTarget.AsciiConditionReadsAlike | rowset-core/internal/api/rowbackup.go:37-107 | On ASCII text with a condition that does not end in a semicolon, trimming cuts none of its tokens. |
| BackupTable.ReadsOwnTableExactly | rowset-core/internal/api/rowbackup.go:37-107 | The backup reads the table that the lower-cased last part of the statement's dotted table name names, in the schema of the part before it; unless that name holds quotes itself, this is the statement's own table if and only if the database folds the unquoted name, as PostgreSQL does, or the name as written is in lower case. |
| BackupTable.UpperCaseNameIsMissed | rowset-core/sqlguard/parser.go:1012-1036 | The token "Users" makes the backup read users. |
| SetList.ReadAssignedColumns | rowset-core/internal/api/rowbackup.go:121-177 | The index loop over the SET list returns what `AssignedColumns` defines, or none. |
| SetList.ReadingInvertsPrinting | rowset-core/internal/api/rowbackup.go:121-177 | For any printed list of qualified-column assignments whose values hold commas and WHERE only inside parentheses, the reader returns the assigned columns in order of first occurrence. |
| SetList.UniqueKeepsNames | rowset-core/internal/api/rowbackup.go:121-177 | Each assigned name is kept, once. |
| SetList.BackupSelectList | rowset-core/internal/api/rowbackup.go:392-426 | The select list is the key, the assigned and the engine-refreshed columns, or everything when the list cannot be read or writes a key column. |
| SetList.RestoreWritesWhatTheStatementWrote | rowset-core/internal/api/rowbackup.go:385-426 | A backup that reads this list, its columns reported in any case, is restored by writing exactly the assigned and refreshed columns that are neither key nor identity, whatever other columns of the table are generated. |
| SetList.StatementIsUndone | rowset-core/internal/api/rowbackup.go:121-177 | From statement to table: an UPDATE whose SET list can be read, and names no key, no identity and no generated column, is undone exactly by the plan of the backup its own select list captured, in whatever case the database reports the columns. |
| SetList.OtherStatementsAreExactOrNothing | rowset-core/internal/api/rowbackup.go:392-426 | The other statements: when the SET list cannot be read or writes a key column, the plan of the backup that list captured aborts, or gives the original table if and only if the identity columns outside the key still agree, row by key. |
| RowBackup.RestorePlan | rowset-core/internal/api/rowbackup.go:607-681 | The loops that build the statements and probes produce exactly the plan: chunks of a hundred rows, key columns as conditions, identity columns never assigned. |
| RowBackup.SplitRow | rowset-core/internal/api/rowbackup.go:657-679 | One row's columns are sorted into what is assigned and what finds the row. |
| Restore.Database.ApplyRowBackup | rowset-core/internal/api/rowbackup.go:806-846 | The restore is one transaction: the table becomes the effect of the whole plan, or, when a statement fails, matches no row or the commit fails, stays as it was. |
| RestoreExact.UpdateRestoreOnAnyTable | rowset-core/internal/api/rowbackup.go:657-679 | On any table the undo of an UPDATE puts the captured columns back on the rows of the captured keys and touches nothing else, or aborts if a key is gone. |
| RestoreExact.RestoreKeepsLaterEdits | rowset-core/internal/api/rowbackup.go:385-426 | After arbitrary later edits of the same rows, the written columns are put back and every edit of any other column stays. |
| RestoreExact.UpdateRestoreIsExact | rowset-core/internal/api/rowbackup.go:607-681 | For any UPDATE of any subset of the selected rows, key-moving ones included: the restore completes if and only if every captured key is present, and then gives the original table if and only if the columns it does not write still agree, row by key. |
| RestoreExact.OldKeysFillTheTable | rowset-core/internal/api/rowbackup.go:840-846 | All old keys still being present forces the moved keys to be the old ones. |
| RestoreExact.WholeRowRestoreIsExactOrNothing | rowset-core/internal/api/rowbackup.go:607-681 | When whole rows were captured and every identity column is in the key, the restore gives exactly the original table or aborts, whatever the database refuses. |
| RestoreExact.WholeRowRestoreExactly | rowset-core/internal/api/rowbackup.go:607-681 | In any database, whatever it refuses: when whole rows were captured the restore aborts, or gives the original table if and only if the identity columns outside the key agree, row by key. |
| RestoreExact.KeyKeepingRestoreIsExact | rowset-core/internal/api/rowbackup.go:607-681 | When the UPDATE kept keys and wrote only captured columns, the restore gives exactly the original table. |
| RestoreExact.WrittenBackByName | rowset-core/internal/api/rowbackup.go:657-679 | Whatever the columns are called: a captured column is written back if and only if no generated, key or identity column has its name up to case. |
| RestoreExact.TwinIsNotWrittenBack | rowset-core/internal/api/rowbackup.go:607-681 | A backup of column A whose plan is empty, because a generated column is called a. |
| RestoreExact.MovedKeysLoseIdentity | rowset-core/internal/api/rowbackup.go:665-672 | A restore that completes but does not give the original table: keys moved between rows whose unwritten identity values differ. |
| RestoreExact.SwappedKeysExample | rowset-core/internal/api/rowbackup.go:665-672 | Such a table, UPDATE and backup, concretely. |
| RestoreDelete.DeleteRestoreIsExact | rowset-core/internal/api/rowbackup.go:625-654 | For any DELETE of any subset of the selected rows, in any database: the restore aborts or gives the original table, the latter only if all selected rows were deleted, and then always if the database refuses no statement. |
| RestoreIdentity.DeleteRestoreRuns | rowset-core/internal/api/rowbackup.go:607-657 | In a database that refuses nothing but what identity columns make it refuse, the undo of a DELETE that took every selected row completes with the original table; except that PostgreSQL's kin, told of an ALWAYS column but given no OVERRIDING, refuse it. |
| RestoreIdentity.UpdateRestoreRuns | rowset-core/internal/api/rowbackup.go:659-681 | No identity column ever stops the undo of an UPDATE. |
| RestoreIdentity.AsksForIdentityInsert | rowset-core/internal/api/rowbackup.go:629-641 | IDENTITY_INSERT is asked for exactly when, on SQL Server, the plan inserts into an identity column. |
| RestoreIdentity.HundredToAStatement | rowset-core/internal/api/rowbackup.go:642-655 | The undo of a DELETE puts a hundred rows into a statement, in order, and what is left into the last. |
| Literals.LiteralReadsBack | rowset-core/internal/api/rowbackup.go:340-365 | The literal written for a stored value is read by its engine as that value: booleans, text with its quotes and backslashes, and bytes in hexadecimal. |
| Literals.VariantsAreCast | rowset-core/internal/api/rowbackup.go:614-624 | On SQL Server a value of a variant column is cast to it, and what is cast is its literal; no other value is. |
| Render.LexReads | rowset-core/sqlguard/parser.go:917-1065 | A list of words, quoted names, string literals and marks that is separated and balanced lexes to exactly one token each. |
| RestoreText.LexemesSpellStatement | rowset-core/internal/api/rowbackup.go:607-681 | The statement's text is the spelling of its lexeme list. |
| RestoreText.EscapesTwice | rowset-core/internal/api/csvimport.go:532-542 | Doubling backslashes and then quotes is escaping byte by byte. |
| ReadBack.StatementLexes | rowset-core/internal/api/rowbackup.go:607-681 | For all names and stored values each undo statement lexes, to the tokens it was built from. |
| RestoreData.StatementSaysItsData | rowset-core/internal/api/rowbackup.go:340-365 | The quoted names and string literals the lexer finds in an undo statement are exactly its table, columns and stored texts, in order: no value adds, loses or splits a token. |
| RestoreAccepted.UndoStatementIsAccepted | rowset-core/internal/api/rowbackup.go:765-792 | An undo statement splits into itself, classifies as INSERT or as UPDATE with an effective WHERE, and is denied only to a read-only role without clearance. |
| RestoreAccepted.EveryPlannedStatementIsAccepted | rowset-core/internal/api/rowbackup.go:765-792 | So does every statement of every plan, whatever rows were captured. |
| RestoreVerdict.ScopeTokens | rowset-core/sqlguard/parser.go:500-616 | No WHERE of an undo statement is ever decided by the folder. |
| Cql.ParseCQL | rowset-core/sqlguard/cql.go:12-69 | The reader's loops: finding the batch, splitting its body, folding its children to the strictest kind, refusing scripts and other statements. |
| Cql.BatchIsItsStrictest | rowset-core/sqlguard/cql.go:52-67 | A batch is read as DELETE if it holds one, else as UPDATE if it holds one, else as INSERT, and has a WHERE if and only if every UPDATE and DELETE in it has. |
| Cql.BatchByWords | rowset-core/sqlguard/cql.go:29-50 | BEGIN BATCH, BEGIN UNLOGGED BATCH and BEGIN COUNTER BATCH begin a batch, whose statements stand before the first APPLY BATCH. |
| Cql.UnappliedBatch | rowset-core/sqlguard/cql.go:36-46 | A batch without APPLY BATCH is refused. |
| Cql.OthersArePlain | rowset-core/sqlguard/cql.go:29-36 | Every other text is read as one statement. |
| CassandraRestore.RestoreStatements | rowset-core/internal/api/cassandra_rowbackup.go:220-267 | The loops over rows and columns produce one INSERT per row, or one UPDATE per row that has both assignments and conditions. |
| CassandraRestore.RestoreBatches | rowset-core/internal/api/cassandra_rowbackup.go:274-288 | Statements are written fifty to a batch, in order. |
| CassandraRestore.FiftyToABatch | rowset-core/internal/api/cassandra_rowbackup.go:274-288 | Batch after batch holds fifty statements, in order, and the last what is left. |
| Sentences.SplitUndoesLines | rowset-core/sqlguard/parser.go:839-881 | Statements that read alone, written one to a line and closed by a semicolon, are returned by the splitter as they were. |
| CassandraAccepted.BatchesAreUndone | rowset-core/internal/api/cassandra_rowbackup.go:274-288 | Putting together what the reader finds in all the batches gives back the statement list, in order. |
| CassandraAccepted.BatchIsAccepted | rowset-core/sqlguard/cql.go:29-68 | Every batch of undo statements is accepted as UPDATE, or as INSERT if it holds no UPDATE, with a WHERE, and denied only to a read-only role without clearance. |
| CassandraAccepted.RestoreIsReadBack | rowset-core/internal/api/cassandra_rowbackup.go:312-345 | Both, for the batches of any captured rows. |
| CassandraExact.RestoreOnAnyTable | rowset-core/internal/api/cassandra_rowbackup.go:220-267 | On any table the undo statements put the captured columns back under the captured keys, remove the cells captured as null, add rows that are missing, and leave everything else as it is, and no statement is refused: of a DELETE always, of an UPDATE when no name that is equal up to case misleads it. |
| CassandraExact.RowIsUndoneExactly | rowset-core/internal/api/cassandra_rowbackup.go:220-267 | The undo of an updated row is right on every table if and only if no other column is equal to a key column up to case and every column holds what the first column equal to it up to case holds. |
| CassandraExact.UndoneExactly | rowset-core/internal/api/cassandra_rowbackup.go:220-267 | After any later edits the undo shows the table as it was if and only if it agreed everywhere but in the captured columns of the captured rows, and no captured row without cells lost its mark to an UPDATE. |
| CassandraExact.WriteIsUndone | rowset-core/internal/api/cassandra_rowbackup.go:148-207 | An UPDATE or DELETE that changed nothing but captured columns of captured rows is undone. |
| CassandraExact.Connection.ApplyRowBackup | rowset-core/internal/api/cassandra_rowbackup.go:312-372 | The batches run one after the other without a transaction, up to the first that fails, in place. |
| CassandraExact.FailedRestoreIsPartial | rowset-core/internal/api/cassandra_rowbackup.go:270-288 | A restore that fails on the way has put back the first rows, a multiple of fifty of them, and no others. |
| CassandraExact.TwinColumnsAreMixedUp | rowset-core/internal/api/cassandra_rowbackup.go:220-267 | Of two columns that differ in case alone, the undo of an UPDATE writes the first one's value into both. |
| AuditChain.Log.WriteActivity | rowset-core/internal/store/audit.go:121-182 | The batch with its map of chain heads appends what appending one entry at a time would; a fault at any point leaves audit rows and history as they were. |
| AuditChain.GroupingDoesNotShow | rowset-core/internal/store/audit.go:121-182 | The log depends on the entries and their order, not on how they were grouped into batches. |
| AuditChain.VerifyAuditChain | rowset-core/internal/store/audit.go:61-99 | The loop with its maps reports each organisation whose chain fails, once, at its first failing row, and counts every row. |
| AuditChain.WrittenLogsVerify | rowset-core/internal/store/audit.go:61-99 | Verification of a log that was only appended to reports nothing. |
| AuditChain.HeadFixesHistory | rowset-core/internal/store/audit.go:17-35 | Two intact chains that end in the same hash have the same length and the same hashed text in every row. |
| AuditChain.AlterationFoundExactly | rowset-core/internal/store/audit.go:61-99 | Altering a row is found if and only if its hashed text or its version no longer fits, and then at that row. |
| AuditChain.DeletionFoundExactly | rowset-core/internal/store/audit.go:61-99 | Deleting a row is found, at the row after it, if and only if it was not the last. |
| AuditChain.SwapFound | rowset-core/internal/store/audit.go:61-99 | Swapping two rows is found at the earlier place. |
| AuditChain.InsertionFound | rowset-core/internal/store/audit.go:61-99 | Inserting a row before another is found there or one row later. |
| AuditChain.OneBreakForOneOrg | rowset-core/internal/store/audit.go:61-99 | A broken chain of one organisation is exactly one break, and none for the intact organisations interleaved with it. |
| AuditFields.WrittenScansAreIntact | rowset-core/internal/store/audit.go:61-99 | In the scan of an append-only log every organisation's chain is intact, which the next three start from. |
| AuditFields.AlteredLogBreaksOnce | rowset-core/internal/store/audit.go:61-99 | Altering a row of the interleaved log, but not its hashes, is answered with one break at that row, or with none if its hashed text and a known version still fit. |
| AuditFields.DeletedLogBreaksOnce | rowset-core/internal/store/audit.go:61-99 | Deleting a row of the interleaved log is answered with one break, at its organisation's next row, or with none if there is none. |
| AuditFields.SwappedLogBreaksOnce | rowset-core/internal/store/audit.go:61-99 | Swapping two rows of one organisation in the interleaved log is answered with one break, at the earlier place. |
| AuditFields.MovedLogBreaks | rowset-core/internal/store/audit.go:61-99 | Giving a bar-free row of the interleaved log another organisation, hashes kept, is answered with a break at the row itself for the new organisation, one at the old organisation's next row if there is one, and no other. |
| AuditFields.FieldsFixedExactly | rowset-core/internal/store/audit.go:17-24 | In either version the hashed text determines the fields it covers if and only if none of them holds a bar. |
| AuditFields.FieldAlterationFoundExactly | rowset-core/internal/store/audit.go:17-35 | Altering the entry of a row whose covered fields hold no bar is found, at that row, exactly when a covered field changed. |
| AuditFields.BarInSqlMovesUnseen | rowset-core/internal/store/audit.go:17-24 | A statement that holds a bar can lend its end to the error message without changing the hashed text. |
| AuditFields.VersionOneAbsorbs | rowset-core/internal/store/audit.go:17-35 | The version is not hashed: a row turned into version 1, its reference holding the rest of the text, verifies with any statement. |
| ActivityWriter.NothingIsLostOrReordered | rowset-core/internal/activity/activity.go:99-188 | After any interleaving, what was accepted is what is stored, in the batch and in the queue, in order, each once; queue and batch stay within their bounds. |
| ActivityWriter.BarrierComesAfterStorage | rowset-core/internal/activity/activity.go:253-286 | A barrier is released only when everything accepted before it is stored. |
| ActivityWriter.NothingIsSentOnAClosedChannel | rowset-core/internal/activity/activity.go:205-251 | A sender inside the read lock never meets a closed channel. |
| ActivityWriter.CloseDrains | rowset-core/internal/activity/activity.go:230-251 | When the writer stops without having abandoned a batch, everything accepted is stored. |
| ActivityWriter.LogDependsOnOrderOnly | rowset-core/internal/activity/activity.go:162-188 | The audit log is what appending the stored records one by one gives, whatever batches, failed attempts and direct writes there were, and its chains are intact. |
| ActivityWriter.StepHolds | rowset-core/internal/activity/activity.go:99-286 | Every atomic section keeps the invariant these follow from. |
| ActivityWriter.Gather | rowset-core/internal/activity/activity.go:162-174 | The loop that separates a batch into audit entries and history rows keeps their order. |
| Buffered.Buffer.StoreRecords | rowset-core/internal/activity/activity.go:131-160 | The retry loop stores the whole batch once, or leaves everything as it was. |
| Buffered.Buffer.CollectBatch | rowset-core/internal/activity/activity.go:99-117 | However the receives of the collecting loop and the sends of requests alternate, they are a run of the protocol; nothing of the queue or of what was sent meanwhile is lost or reordered, and the batch has one to 256 records. |
| Buffered.Buffer.WriteAround | rowset-core/internal/activity/activity.go:290-311 | A refused record is written by its own request, once or not at all. |
| Buffered.Buffer.ReleaseBarriers | rowset-core/internal/activity/activity.go:124-129 | Exactly the barriers of the stored batch are released. |
| Buffered.ReleasingIsARun | rowset-core/internal/activity/activity.go:124-129 | Releasing a batch is a run of single releases of the protocol. |
| PoolManager.NoHandleIsLostOrShared | rowset-core/internal/engine/engine.go:991-1065 | After any interleaving no key is both published and being opened, a publication replaces no pool or tunnel, and every opened handle is published under one key, held by one unfinished attempt, or closing or closed. |
| Keys.KeysBelongById | rowset-core/internal/engine/engine.go:208-243 | The pool key of a connection, and the origin key of any statement on it, belong to the connection's id; and, of ids without a bar, to no other. |
| Keys.BarsMislead | rowset-core/internal/engine/engine.go:1176-1180 | An id with a bar can claim another connection's keys. |
| PoolManager.NothingStaleIsPublished | rowset-core/internal/engine/engine.go:187-243 | No published pool comes from an attempt that had begun for a connection when a connection of its id was invalidated, and nothing is published after Close. |
| PoolManager.WaitersShareTheOutcome | rowset-core/internal/engine/engine.go:1002-1006 | A request that waited on an attempt gets exactly what the request that made it got. |
| PoolManager.StepHolds | rowset-core/internal/engine/engine.go:187-243 | Every critical section keeps the invariant these follow from. |
| Manager.Pools.Ask | rowset-core/internal/engine/engine.go:991-1010 | The first critical section, in place. |
| Manager.Pools.Publish | rowset-core/internal/engine/engine.go:1036-1066 | The second critical section, in place, and the handles it leaves to close. |
| Manager.Pools.Invalidate | rowset-core/internal/engine/engine.go:208-243 | The three deleting loops drop every key of the connection's id and none of another id, bars apart, and hand back exactly their handles. |
| Manager.Pools.Close | rowset-core/internal/engine/engine.go:187-204 | Everything leaves the manager and is handed back to be closed. |
| SchemaCache.RefreshReadsAgain | rowset-core/internal/engine/schemacache.go:37-90 | A refresh is served by a load its own call began. |
| SchemaCache.InvalidationIsSeen | rowset-core/internal/engine/schemacache.go:37-109 | A call made after an InvalidateSchema of its connection is served by a load that began after it, even with older loads still running. |
| SchemaCache.FailureIsNotServedLater | rowset-core/internal/engine/schemacache.go:46-62 | A load that had failed is never served to a later call, and one that had succeeded only within thirty seconds. |
| SchemaCache.FailureDeletesOnlyItself | rowset-core/internal/engine/schemacache.go:77-83 | Clearing up after a failed load removes no newer entry. |
| SchemaCache.Cache.Choose | rowset-core/internal/engine/schemacache.go:37-64 | The choice between waiting and loading, in place. |
| SchemaCache.Cache.Invalidate | rowset-core/internal/engine/schemacache.go:95-109 | The deleting loop, in place: every key of the connection's id is gone, and every key of another id, bars apart, stays as it was. |
| Transactions.ReaperSparesClaimed | rowset-core/internal/api/transactions.go:231-248 | A transaction the reaper is to roll back is claimed by no request and can no longer be. |
| Transactions.ExpiresExactly | rowset-core/internal/api/transactions.go:110-139 | A step expires a transaction if and only if it is the reaper's, or a request's for it, and the transaction stands in the registry unclaimed and unused for longer than the timeout. |
| Transactions.RecentUseSurvives | rowset-core/internal/api/transactions.go:231-248 | Whatever happens, no transaction expires within the timeout of its last use. |
| Transactions.EndsExactlyOnce | rowset-core/internal/engine/engine.go:756-768 | Whatever commits, rollbacks, reaps, connection deletions and lost connections race, the database sees at most one end, and a transaction that left the registry unended is in someone's hands to be ended. |
| Transactions.CommitIsToldOnceAndTruly | rowset-core/internal/api/transactions.go:181-229 | At most one request is told its commit succeeded, and only when it took effect. |
| Transactions.HandleReportsTrulyExactly | rowset-core/internal/engine/engine.go:756-809 | In every reached state a handle whose Commit reports no error has committed if and only if the transaction had not been rolled back before; a state other than lost means it had not ended. |
| Transactions.DiscardIsToldTrulyExactly | rowset-core/internal/api/transactions.go:181-229 | A request answered that its transaction was lost, or rolled back, is told the truth if and only if no step of the run commits the transaction for another request, which had claimed it for that and was told of success or of a failure; so the answer is true whenever no other request claims the transaction to commit it. |
| Transactions.OtherClaimCanMislead | rowset-core/internal/api/transactions.go:181-229 | From every state in which another request waits to commit the same active transaction, a run leads to a false answer. |
| Transactions.LosingARaceIsToldAsDiscard | rowset-core/internal/api/transactions.go:181-229 | Such a state and its false answer are reached from the start. |
| Transactions.BothEndsAreReached | rowset-core/internal/engine/engine.go:756-770 | Runs that end a transaction either way, so both answers of such a handle occur. |
| Transactions.StepHolds | rowset-core/internal/api/transactions.go:110-266 | Every critical section keeps the invariant these follow from. |
| Registry.Server.TransactionEntry | rowset-core/internal/api/transactions.go:110-139 | Finding and claiming under one lock, in place. |
| Registry.Server.FinishTransaction | rowset-core/internal/api/transactions.go:181-229 | The end of a finishing request, in place, with the answer it gives: done, lost, rolled back by the server, or failed. |
| Registry.Server.CloseConnection | rowset-core/internal/api/transactions.go:250-266 | Exactly the registered transactions of the connection are taken out, claimed or not. |
| Registry.Sweep | rowset-core/internal/api/transactions.go:231-266 | The loop over the registry takes out exactly what fits. |
| Registry.Server.ReapIdle | rowset-core/internal/api/transactions.go:231-248 | Exactly the registered transactions that no request has claimed and that stood idle for longer than the timeout are taken out. |
| ParseCache.Cache.ParseDialect | rowset-core/sqlguard/parser.go:145-164 | With or without the cache the answer is the parser's, and every shard stays exact. |
| ParseCache.Cache.Store | rowset-core/sqlguard/parser.go:428-446 | A new key enters its shard as the ring prescribes; a key stored meanwhile is left alone. |
| Ring.InsertKeepsExact | rowset-core/sqlguard/parser.go:428-446 | The order lists exactly the cached keys without repeats. |
| Ring.InsertEvictsOldest | rowset-core/sqlguard/parser.go:428-446 | A full ring drops its oldest key and no other. |
| Ring.BoundHolds | rowset-core/sqlguard/parser.go:428-446 | At most 512 keys are cached. |
| OriginCache.Cache.Put | rowset-core/internal/engine/origincache.go:39-58 | What was put is found, and the bound holds. |
| OriginCache.Cache.Forget | rowset-core/internal/engine/origincache.go:60-71 | The deleting loop drops every entry of the connection's id and none of another id, bars apart. |
| OriginCache.AnyMixIsBounded | rowset-core/internal/engine/origincache.go:29-71 | Under any mix of put and forget every cached key has a slot and at most 512 are cached. |
| OriginCache.ForgettingLeavesASlot | rowset-core/internal/engine/origincache.go:60-71 | Unlike the parse cache, the slots may then list a key twice. |
| Schedule.Next | rowset-core/internal/api/schedule.go:70-99 | In a zone of fixed offset the bounded search returns the least matching instant after its argument, within seven days, so the error for no next run is unreachable; an interval gives the whole second it names. |
| Schedule.EveryInstantIsVisitedOnce | rowset-core/internal/api/schedule.go:70-99 | Following the schedule from any time reaches every later instant of it, exactly once, in order. |
| Schedule.WeekComesRound | rowset-core/internal/api/schedule.go:101-108 | A weekday of the list comes within seven days of any day. |
| Schedule.ShowsItsClock | rowset-core/internal/api/schedule.go:79-99 | The instants of a schedule are exactly the times that show, on the local wall clock, its hour and minute and no second, on one of its weekdays. |
| Schedule.AcceptedExactly | rowset-core/internal/api/schedule.go:41-68 | A schedule is accepted if and only if its zone is known and it is an interval of five minutes to seven days, or has a clock time and, when weekly, weekdays from Sunday to Saturday. |
| Scheduler.AtMostOneRun | rowset-core/internal/api/scheduler.go:45-92 | Whatever ticks, manual starts and failures interleave, no query has two runs in flight and no due time starts two. |
| Scheduler.DueStartsExactly | rowset-core/internal/api/scheduler.go:45-70 | A due query is started if and only if its next run was stored, it is not running, the scheduler goes on, and it is at most thirty seconds late or catches up. |
| Scheduler.Server.StartDue | rowset-core/internal/api/scheduler.go:45-70 | One due query: the next run is stored before the run is started, in place. |
| Scheduler.Server.StartScheduled | rowset-core/internal/api/scheduler.go:73-92 | A running query, or a stopped scheduler, starts nothing. |

## Left out

- Lexer: case folding is ASCII only; Go folds all of Unicode. Where the end check of a string looks only at its last byte, so does the model.
- Routine.DefinitionEnds: names at depth 0 spelled END, which close a block; one such body is `Routine.NamedEndCuts`.
- Routine.DefinitionIsOnePiece: one direction; that a miscounted definition does not end at its semicolon is `Routine.DefinitionEnds`.
- Classifier: of the flags for session effects only that a script raises those of its statements.
- SplitAgreement: MySQL and generic executable comments, whose counter a cut loses; the dialects of the theorem are PostgreSQL and SQL Server.
- SplitAgreement.AsciiScriptsAgree: a corollary for ASCII text; the equivalence above it covers all text.
- Folder: number parsing is a parameter, which `FormulaCanonical` asks to read integers of up to fifteen digits, inf and nan as Go does; rounding is left out.
- FormulaTruth: NULL, BETWEEN, IN, LIKE, function calls and national or dollar-quoted strings have no place in the formulas, and their keywords are in lower case; words of operands are ASCII.
- FormulaTruth.OrderAnswerIsRightExactlyWhenFaithful: in a database where every value has one below it and one above; at the last value of a bounded type a comparison comes out one way only.
- Classifier: normalised text, hashes and secondary routing; of table extraction nothing beyond what the verdict needs is proved.
- Policy: plug-in rules and custom policies, which may read the order-dependent kind; reason texts.
- BackupTarget: the Cassandra variant of the decision, and the dialects with executable comments.
- BackupTarget.AsciiConditionReadsAlike: one direction; a last semicolon with a comment behind it would do no harm.
- BackupTarget.BacksUpOwnCondition: the condition given is sufficient; that it is necessary for finding the clauses is `BackupTarget.OwnClausesExactly`. Where a database's grammar puts them is given, not parsed.
- AuditFields.MovedLogBreaks: for entries whose covered fields hold no bar; what a bar can hide is `AuditFields.BarInSqlMovesUnseen`.
- Policy.ScriptIsNotMoreLenient: for statements that stay whole; which ones do is `Policy.StaysWholeByWords`, and what may be said of any other is `Policy.RefusedWheneverExactly`.
- RestoreIdentity: sequences and seeds, which a restore does not move; SET IDENTITY_INSERT is part of running the plan.
- Restore: databases are assumed to execute INSERT and UPDATE as their standard says on unique, non-null keys; triggers, defaults and constraints beyond the key appear only as a statement being refused. Duplicate rows of tables without a key are outside.
- RowBackup: encoding of driver values; the model starts from the encoded kinds and texts. Base64 of Cassandra blobs is left out, so their text is the hexadecimal digits. NaN and infinite CQL floats, which are written bare, are outside.
- ReadBack: MySQL's dialect is paired with the MySQL family of engines only; every other dialect with every engine.
- RestoreAccepted: number parsing is assumed to refuse texts that begin with a quote.
- CassandraExact: write timestamps, TTLs and static columns.
- BackupTable.ReadsOwnTableExactly: names that hold a quote themselves, of which the lexer's trimming may take more.
- RestoreExact: the theorems on tables are for columns that differ in more than case; of others `RestoreExact.WrittenBackByName` says what is written.
- CassandraAccepted: the keyspace is not empty, as the capture demands.
- Cql.ParseCQL: a child that splits again is read as its script; which one it is, is given as a relation.
- AuditChain: SHA-256 is an injective constructor; purging is outside, so runs are append-only; the scan's order among organisations is left open.
- ActivityWriter: backends without a batch write, Flush after shutdown has begun, and time: an expired wait is a step that may be taken at any moment.
- PoolManager: dialling, drivers and pool sizes; a handle is a number.
- SchemaCache: the deadline of the loading call.
- Transactions: limits on open transactions, Server.Close, Mongo transactions.
- ParseCache: invalid dialect names; goroutines meet only in the two lock sections, which are methods.
- OriginCache: freshness, since a resolve that began before a forget may still put.
- Schedule: zones with daylight saving, where the library chooses the instant; text of clocks and zones is taken as parsed.
- Scheduler: edits of a query between the due list and its turn.
- HTTP handlers, JSON, encryption, drivers, SSH, Mongo, Redis and Elasticsearch backups, Slack, AI and the front end: input and output, or the same shapes.
