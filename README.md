# Distributed arithmetic orchestrator: decomposition and task resolution

This project models the core of a small Go service that evaluates arithmetic expressions. The
work is split into binary tasks that workers compute. The model covers three parts:

- **Intake.** `AddExpression` validates the text, stores it as `pending`, and tokenizes it into
  digit runs and `+ - * /`. It then runs two left-to-right scans over the token slice: first
  `*` and `/`, then a compaction, then `+` and `-`. Each operator becomes a task whose operands
  are tokens or ids of earlier tasks. The scans rewrite the slice in place. Finally the handler
  stores the tasks, records the last one as the root, and marks the expression `in_progress`.
- **Dispatch.** `GetNextPendingTask` returns a task whose result is NULL and whose two
  arguments contain no ASCII letter. The model assumes that every task id contains a letter,
  so that such a task no longer waits for another task.
- **Result cascade.** `UpdateTaskResult` runs as one transaction. It stores the result, writes
  its `%g` text into the unresolved tasks of the same expression that name the task, counts the
  tasks still pending, and completes the expression when none remain.

## Modules

- `wrappers.dfy`: `Option` and `Result`.
- `model.dfy`: the rows of the two tables, the opaque float `Value` with its `%g` text, and the
  letter test that tells a task reference from a number.
- `tokens.dfy`: the validation pattern and the tokenizer.
- `decomposition.dfy`: the two scans as a specification function (`PassFrom`, `Decompose`)
  and as the in-place array methods the handler runs (`RunPass`, `DecomposeTokens`), plus
  their properties.
- `database.dfy`: the store as a class over a `map` of expressions and a `seq` of tasks. Each
  database function is one atomic method. Beside them are the pure functions that say what
  each SQL statement does, and their properties.
- `handler.dfy`: `AddExpression` over the store, `getOperationTime`, and the scenario of the
  handler tests (`TestAddExpression` adds it, `TestGetTask` and `TestSubmitTaskResult` fetch
  and resolve its first task).

## Modelling choices

- Each fresh identifier comes from a parameter. The expression id is `exprId`, and the k-th
  task of a request gets `ids(k)`. Properties that depend on ids require that every id holds
  a letter and, where it matters, that ids are distinct.
- The pattern's `\s` is RE2's: tab, newline, form feed, carriage return and space.
- A float64 result is an opaque `Value`. Only its `%g` text `Format(v)` is used.
- The task table is a sequence in insertion order. `GetNextPendingTask` returns the first
  ready row. SQLite without `ORDER BY` makes no such promise, so the model picks one
  deterministic order among those allowed.
- The `LIMIT 1` completion subquery is a nondeterministic choice. `Candidates` is the set of
  rows it may return.
- An operator in the first or last slot makes the Go handler index outside its slice and
  panic. The model reports this as `Err(MalformedExpression)`. The expression row was already
  inserted, so it stays `pending` with no tasks.
- The service's written design describes the tokenizer, the decomposer and the two stores
  as contracts. Where that design and the code disagree, the model follows the code:
  - The design says a stored result is never overwritten and a resubmission is a no-op. The
    code sets the result unconditionally (`ResubmissionOverwrites`).
  - The design calls dispatch order implementation-defined. The model fixes one order, the
    first row in table order.
  - The design says an operator takes the current left slot, which may hold an earlier task's
    id. In the code the left slot of a chained operator is the one the previous step blanked,
    so `a + b + c` yields a root task over a blank operand (`ChainedAdditionTakesBlank`,
    `ChainedProductTakesBlank`).
  - The design completes an expression with its own root task's value. The code's completion
    subquery is not restricted to the expression being completed, so it may return another
    expression's root value or a NULL (`CompletionValueNotCorrelated`, `CompletionMayRollBack`).
  - The design expects a bare number to complete at once. The code stores no task for it and
    marks it `in_progress` with a NULL result, where it stays (`AddExpression`).

## Model

| member | source | states |
|---|---|---|
| Tokens.Tokenize | internal/handler/handler.go:46-49 | every token is a non-empty run of digits or exactly one of `+ - * /` |
| Tokens.DigitRun | internal/handler/handler.go:47 | a number token is maximal: it ends at the end of the text or before a non-digit |
| Tokens.TokenizeConcat | internal/handler/handler.go:46-49 | concatenating the tokens gives the input with every character other than digits and operators removed |
| Tokens.TokenizeSplit | internal/handler/handler.go:46-49 | tokenizing a concatenation gives the tokens of the parts whenever the cut does not fall between two digits |
| Tokens.TokenizeNumberRun | internal/handler/handler.go:47 | `\d+` is greedy: a digit run followed by a non-digit (or nothing) is a single number token |
| Tokens.IsValidExpression | internal/handler/handler.go:31 | the pattern `^[\d\s\+\-\*\/\(\)]+$`: a non-empty text whose every character is a digit, RE2 whitespace, one of `+ - * /` or a parenthesis |
| Tokens.ValidTextLosesOnlyLayout | internal/handler/handler.go:31-49 | for a text the pattern accepts, the tokens concatenated give the text with exactly its whitespace and parentheses removed |
| Decomposition.PassFrom | internal/handler/handler.go:89-106 | one left-to-right scan of a tier: each operator of the tier with neighbours emits a task over them, overwrites the left slot with its id and blanks the other two; an operator in the first or last slot fails as malformed; the slot count is kept and earlier tasks stay a prefix |
| Decomposition.Decompose | internal/handler/handler.go:85-134 | the `*`/`/` scan, the compaction, then the `+`/`-` scan over the compacted slots; the only failure is a malformed expression |
| Decomposition.Compact | internal/handler/handler.go:108-114 | the filtered slice holds exactly the non-blank slots and is no longer than the input |
| Decomposition.CompactAppend | internal/handler/handler.go:108-114 | filtering distributes over concatenation |
| Decomposition.DecomposeTokens | internal/handler/handler.go:85-134 | the in-place scans over arrays and the filtering loop give exactly `Decompose` of the tokens |
| Decomposition.RunPass | internal/handler/handler.go:89-106 | one in-place scan leaves the array and tasks that `PassFrom` describes, or fails as it does |
| Decomposition.SeparatedPass | internal/handler/handler.go:117-134 | on slots where no operator of the tier sits in the first or last slot and no two of them touch, a scan succeeds and emits one task per operator, in order |
| Decomposition.MulDivPassAlternating | internal/handler/handler.go:89-114 | on an alternating list, the `*`/`/` scan succeeds with one task per `*`/`/`, and its compacted slots hold operands and single `+`/`-` operators, never two operators in a row (operands may be adjacent, as in `2 + 3 * 4 * 5`) |
| Decomposition.OneTaskPerOperator | internal/handler/handler.go:89-134 | for an alternating number/operator list, decomposition succeeds, emits one task per operator with that operator, all `*`/`/` tasks before all `+`/`-` tasks, and `|tokens| / 2` tasks |
| Decomposition.DecomposeTraceable | internal/handler/handler.go:91-104 | task k gets id `ids(k)`, the expression's id, no result and an operator; each operand is an input token, a blank or the id of an earlier task |
| Decomposition.ReferencesPointBackward | internal/handler/handler.go:119-132 | with distinct lettered ids, none of which is also an input token, a task only names tasks emitted before it, so the task graph is acyclic |
| Decomposition.ChainedAdditionTakesBlank | internal/handler/handler.go:117-134 | `a + b + c` yields `(a + b)` and then `("" + c)`: the second operator reads the slot the first one blanked |
| Decomposition.ChainedProductTakesBlank | internal/handler/handler.go:89-106 | `a * b * c` yields `(a * b)` and then `("" * c)`; the first product is named by no task |
| Decomposition.LeadingOperatorIsMalformed | internal/handler/handler.go:91-92 | a `*` or `/` in the first slot has no left operand, and the request fails before any task is stored |
| Decomposition.TrailingOperatorIsMalformed | internal/handler/handler.go:119-120 | `a +` has no right operand and fails |
| Decomposition.OperatorTakenAsOperand | internal/handler/handler.go:89-106 | a numeral followed by `**` passes validation, is tokenized as `a * *`, and yields one task whose right operand is the text `*` |
| Database.IndexOf | internal/database/database.go:278-284 | finds the first row with the id, or reports that no row has it |
| Database.Ready | internal/database/database.go:229-234 | the dispatch filter: result still NULL and neither argument contains an ASCII letter |
| Database.SetResult | internal/database/database.go:268-272 | only the submitted task's result changes, and it becomes the value |
| Database.Substitute | internal/database/database.go:287-301 | the `CASE WHEN` update: in tasks of the expression with a NULL result that name the id, each argument equal to the id becomes the text; ids are kept |
| Database.PendingCount | internal/database/database.go:307-314 | the `COUNT(*)` of tasks of the expression whose result is NULL, at most the number of tasks |
| Database.Candidates | internal/database/database.go:319-325 | the values the completion subquery may return: the result of every task that is the stored root of its own expression, for all expressions |
| Database.Cascade | internal/database/database.go:268-301 | the task table after the result is stored and substituted into the dependents; ids are kept |
| Database.ReadyStaysReady | internal/database/database.go:229-301 | a ready task other than the submitted one is left unchanged by the cascade and stays ready |
| Database.SubstitutionScope | internal/database/database.go:287-301 | only unresolved tasks of the same expression that name the task change; in them exactly the arguments equal to the id become the text, and every other column is kept |
| Database.SubstitutionClearsReferences | internal/database/database.go:287-301 | after the substitution no unresolved task of the expression names the task |
| Database.NoDoubleSubstitution | internal/database/database.go:287-301 | substituting a second time for the same task changes nothing |
| Database.ResubmissionOverwrites | internal/database/database.go:268-301 | resubmitting a task only overwrites its stored result with the new value; dependents keep the first value's text |
| Database.ReadyAfterSubstitution | internal/database/database.go:229-234 | a rewritten task is ready exactly when the substituted text and its remaining argument are free of letters |
| Database.ExponentFormBlocksDependent | internal/database/database.go:232-233 | a value whose `%g` text is `1e+06` leaves every dependent task not ready |
| Database.PendingCountZero | internal/database/database.go:307-314 | the pending count is zero exactly when every task of the expression has a result |
| Database.CompletionValueOwnRoot | internal/database/database.go:317-329 | when only the completing expression still names a root, the completion value is that root's result |
| Database.CompletionValueNotCorrelated | internal/database/database.go:319-329 | with two expressions in progress, one of them (`3 * 4 * 5`) holding its resolved root and a pending first product, completing the other expression may store the root value of `3 * 4 * 5` instead of its own |
| Database.CompletionMayRollBack | internal/database/database.go:319-333 | the subquery may return another expression's NULL root result, and then the whole submission rolls back |
| Database.NoRootNoCandidate | internal/database/database.go:319-333 | when no expression still names a root, the subquery returns no row and the completion step fails |
| Database.Complete | internal/database/database.go:317-329 | the completed row has status `completed` and the value, and keeps its id, text and user |
| Database.Decimal | internal/database/database.go:167-168 | `%d` gives a non-empty numeral of digits without a leading zero |
| Database.DecimalRoundTrip | internal/database/database.go:167-168 | reading the numeral back gives the number |
| Database.Tuple | internal/database/database.go:167-168 | the placeholder tuple of row `i`: `($5i+1, $5i+2, $5i+3, $5i+4, $5i+5)` |
| Database.TupleList | internal/database/database.go:164-169 | the tuples of the first `n` rows, separated by `, ` |
| Database.InsertStatement | internal/database/database.go:160-169 | the column list header followed by the tuple list of the batch |
| Database.InsertArgs | internal/database/database.go:162-171 | five arguments per task in batch order (id, arg1, arg2, operation, expression_id), `5n` in all |
| Database.ArgsLayout | internal/database/database.go:163-171 | there are `5n` arguments, and placeholder `$(5i+c+1)` is bound to column `c` of task `i` (id, arg1, arg2, operation, expression_id) |
| Database.Placeholders | internal/database/database.go:163-164 | the database's reading of the statement text: the numbers of its `$n` placeholders, left to right, each taking at least two characters of the text (`$` and a digit) |
| Database.PlaceholdersAppend | internal/database/database.go:164-169 | the placeholder numbers of a concatenation are those of its parts whenever the cut does not split a run of digits |
| Database.TupleNumbers | internal/database/database.go:167-168 | tuple `i` names the placeholders `$5i+1` … `$5i+5`, in that order |
| Database.TupleListNumbers | internal/database/database.go:163-169 | the VALUES list of `n` rows names `$1` … `$5n`, each once and in order |
| Database.BindTuples | internal/database/database.go:173 | the database's reading of the VALUES list: tuples of five values, `$j` takes the `j`-th argument, a short tuple or a placeholder without an argument fails; on success one row per tuple, each with a NULL result |
| Database.StatementRoundTrip | internal/database/database.go:159-173 | binding the built arguments to the placeholders read from the built VALUES list gives exactly the batch's rows, in order, each column from its own task and a NULL result |
| Database.InsertedRows | internal/database/database.go:159-173 | building the statement, reading its placeholders and binding each `$j` to the `j`-th argument inserts exactly the batch's rows, in order, with a NULL result |
| Database.BuildInsertTasks | internal/database/database.go:159-171 | the loop builds exactly the statement `InsertStatement` and the argument list `InsertArgs` |
| Database.Store.constructor | internal/database/database.go:15-61 | an empty store satisfies the table keys |
| Database.Store.InsertExpression | internal/database/database.go:131-140 | inserts the whole row, or fails on a taken id and changes nothing |
| Database.Store.UpdateExpression | internal/database/database.go:142-152 | rewrites text, status and result of the row with that id; an unknown id changes nothing and is no error |
| Database.Store.InsertTasks | internal/database/database.go:154-179 | an empty batch does nothing; otherwise the rows are appended, unless the batch needs more than `MaxVariables` placeholders or holds a duplicate id, which rejects the whole batch |
| Database.Store.GetNextPendingTask | internal/database/database.go:222-258 | returns the first ready task and changes nothing; returns none exactly when no task is ready |
| Database.Store.UpdateTaskResult | internal/database/database.go:260-337 | an unknown id fails as unknown, and every other failure is a persistence error; nothing changes on failure; otherwise result and substitution are applied; the expression completes with a candidate value only when no task is pending; every failure rolls everything back |
| Handler.OperationTime | internal/handler/handler.go:199-212 | each operator gets its configured duration, and any other text gets 0 |
| Handler.EmittedTasksAreTimed | internal/handler/handler.go:199-212 | every emitted task is dispatched with one of the four configured durations |
| Handler.Root | internal/handler/handler.go:137-144 | the result column names the last task, or stays NULL when there is no task |
| Handler.AddExpression | internal/handler/handler.go:51-153 | rejects an invalid text and changes nothing; a malformed one leaves a `pending` row without tasks; a batch over the placeholder limit or with a taken id leaves it `pending` without tasks; otherwise stores the tasks and marks the row `in_progress` with its root |
| Handler.TokenHasNoLetter | internal/handler/handler.go:46-49 | no token contains a letter, so no token can be taken for a task id |
| Handler.SplitTextIsAcyclic | internal/handler/handler.go:85-134 | for any text, with distinct lettered ids, every task names only earlier tasks |
| Handler.TokenizeExample | internal/handler/handler_test.go:100-108 | `2 + 3 * 4` gives the tokens `2 + 3 * 4` |
| Handler.DecomposeExample | internal/handler/handler_test.go:100-108 | `2 + 3 * 4` gives the product task and then the sum task that names it |
| Handler.SubmitScenario | internal/database/database.go:222-337 | for `2 + 3 * 4` added to an empty store (the authenticated request of `TestAddExpression`, handler_test.go lines 100-108; the later `/calculate` posts of `TestGetTask` and `TestSubmitTaskResult` carry no token and are refused by the authentication middleware, so the task they fetch and submit 12 for is this one), the `*` task is dispatched first; after 12 is submitted, it is stored and substituted, and the `+` task is dispatched next; submitting its result completes the expression with that value. The last two steps go beyond what the tests exercise |

## Left out

- The HTTP layer: request binding, JSON responses, status codes, route setup, and the
  `GetExpressions` and `GetExpressionByID` reads.
- Authentication: JWT middleware, user registration and login, and bcrypt hashing. These are
  foreign crypto and wall-clock code.
- Schema creation and connection setup. Foreign keys are not modelled because SQLite does not
  enforce them by default. Only the primary keys are kept, as `Store.Valid`.
- Environment configuration: the four operation times are the `OperationTimes` parameter.
- UUID generation: ids are parameters (`exprId`, `ids`).
- Ids without a letter: a version-4 UUID written in hex contains no letter `a`-`f` only with a
  tiny probability, and such a task id would be taken for a number by the dispatch filter. The
  properties that involve ids assume every task id contains a letter.
- Float arithmetic and `%g` formatting: values are opaque, and only whether their text holds a
  letter matters.
- Concurrency and isolation: each database function is one atomic step. The fact that two
  workers can be handed the same task is not modelled.
- The `status` column of `tasks`: it is written on submission and never read.
- SQL syntax details, such as the `$2::text` parameter name and text affinity of the result
  columns.
- Database.BindTuples: the driver is taken to give placeholder `$j` the `j`-th argument. The
  statement names `$1` … `$5n` once each and in order (`TupleListNumbers`), so binding by
  number and binding in order of appearance agree on it.
- Failures of the database driver itself (connection or I/O errors). Only the errors the SQL
  semantics produces are modelled: primary-key violations, the host-parameter limit, a missing
  row, and a NULL scan.
- Database.MaxVariables: the limit is SQLITE_MAX_VARIABLE_NUMBER of SQLite 3.32 and later
  (32766). A driver built against an older SQLite refuses more than 999 placeholders, that is,
  batches of more than 199 tasks.
