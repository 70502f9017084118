# QueryLynx, verified in Dafny

QueryLynx turns a question into one read-only SQL query. A model proposes text; everything that decides what happens to
that text is ordinary code: string scanners, a bounded correction loop, and two maps of live connections. This project
models that code and proves what it guarantees for every text, every answer of the model, the classifier and the
database, every timing, and every interleaving.

| module | models |
|---|---|
| `Ascii`, `Wrappers` | the string helpers of Go's standard library over ASCII; Option and Result |
| `Regex` | Go's leftmost-first regular expressions: a declarative match relation, the backtracking search, FindAll, and a one-pass scanner |
| `Guard`, `Gate` | the query allowlist (`Check`) and LIMIT injection (`Validate`) |
| `TableScan`, `TableCheck`, `References` | the FROM/JOIN and CTE expressions, `ValidateTables`, and what it takes for a definition and a reference, read off the characters |
| `Fence` | `extractSQL` |
| `JsonList`, `Routing` | `parseTableList`, `filterKnown`, `Route`, `Subset` |
| `SchemaModel`, `Introspection`, `KeyLaws` | the schema, its construction from row streams, and what it leaves in the keys, counts and samples |
| `Redaction` | the key=value branch of `RedactDSN` |
| `Pipeline`, `PipelineLaws`, `PipelineAnswers`, `PipelineTime` | `Pipeline.Run`, its trace, feedback, gate and deadlines, and every stage against what was asked and answered |
| `Executor`, `Sessions`, `SessionHistory`, `RegistrationTime` | the connection owner and the session registry, as objects and under every interleaving; which ids become sessions; a registration under its caller's deadline |
| `Deployment` | the two together: the registry's remote calls open and close connections in the executor's map |
| `Findings` | concrete inputs at which the code falls short of its comments |

Code that changes things step by step is imperative here: methods with loops, or classes whose methods state the whole new
state. Each is tied to a function, and the laws are lemmas about that function. Callees outside the code (the model, the
classifier, the database, the clock, remote calls) are parameters: functions of the moment and of what they are given, so
that a lemma over all of them covers every run.

Six findings, each with its exact condition and, where something fails, an input:

- `Validate` strips one semicolon. A query that still holds one may be accepted by `Check`; if it has no limit token, the
  injected LIMIT makes the output a second statement that `Check` itself refuses (`Gate.StrayLimitIsStacked`). The output is accepted
  again exactly when the stripped query holds no semicolon or has a limit token (`Gate.ClosureExact`), and validation is
  idempotent exactly when it holds no semicolon (`Gate.IdempotenceExact`). The input is `SELECT 1;;` (`Findings.TwoSemicolons`).
- A reference is looked up by the part of its run after the last dot (`TableCheck.LooksUpRun`), and a run that ends in a dot is
  never looked up (`TableCheck.NeverLookedUp`); this is what remains of `schema."table"`. So a query passes with every schema
  exactly when each reported reference is of that kind or names a CTE (`TableCheck.PassesAnySchema`), as
  `select * from a."b"` does (`Findings.QualifiedQuotedPasses`). `NormalizeTableRef` itself does what its comment says of such a
  reference, had it been captured whole (`TableCheck.NormalizesToName`).
- A quoted reference is checked as its own name exactly when that name is one word (`References.QuotedExact`): with a dot, a
  blank or any other character in it something else is looked up, or nothing. `select * from "vehicles x"` is checked as a
  reference to `vehicles` (`Findings.QuotedBlankIsCut`).
- The comment in validate.go calls the names of CTEs defined in the query valid references. The names the check knows are
  exactly those of a header on the characters: the bounded word `with` or a comma, a blank or more, the name, a blank or more,
  `as`, blanks, and the parenthesis (`References.CteNamesExact`, and `References.AcceptsByHeaders` for the verdict). So among the
  CTE definitions of SQL exactly the plain ones count: `recursive`, quotes, a column list, `materialized`, and a comma with no
  blank after it each make the check miss the definition (`References.DefinitionCounts`). Three inputs, each refused unless the
  schema happens to hold a table of the name: `with recursive t as (select 1) select * from t`
  (`Findings.RecursiveCteRefused`), `with t(n) as (select 1) select * from t` (`Findings.ColumnListRefused`), and
  `with a as (select 1),b as (select 2) select * from b` (`Findings.CommaWithoutBlankRefused`).
- At rest the registry and the executor agree exactly when no open took effect unseen, no cleanup was refused, and every refused
  close was made up for by a later one (`Sessions.AgreeExactly`, `Deployment.MapsAgreeExactly`). An open whose reply is lost
  leaves its connection behind (`Deployment.LostReplyLeaks`), although the comment in session.go promises that nothing leaks;
  and so does every introspection that its caller's deadline ends, since the cleanup is made on the same context
  (`RegistrationTime.RegisterBy`).
- The branch of `ValidateTables` for a parenthesis is dead (`TableCheck.RefCaptured`).

## Model

| member | source | states |
|---|---|---|
| Ascii.TrimIsMiddle | internal/safety/guard.go:49-51 | trimming returns the middle of a text between blank ends, and there is only one such middle |
| Ascii.CaseTable | internal/safety/guard.go:68 | the two case functions exchange the letters of the alphabet and leave every other character alone |
| Ascii.ItoaReadsBack | internal/connector/postgres/postgres.go:217 | a printed number reads back as the number, and has no zero in front |
| Regex.ClassesExact | internal/agent/sql/validate.go:12-17 | what each character class matches, character by character |
| Regex.FirstComplete | internal/agent/sql/validate.go:36-40 | the priority search fails only where the declarative relation has no match at all |
| Regex.FindAllSound | internal/agent/sql/validate.go:36-40 | reported matches are leftmost matches of the relation, in order, without overlap |
| Regex.FindAllCovers | internal/agent/sql/validate.go:36-40 | every occurrence of a pattern is reported or lies inside a match reported earlier |
| Regex.FindAllSameFold | internal/agent/sql/validate.go:12-17 | the spans of all reported matches are independent of letter case |
| Regex.StarCommits | internal/agent/sql/validate.go:12-17 | a greedy run gives nothing back when what follows cannot start inside its class |
| Regex.ScanAll | internal/agent/sql/validate.go:36-40 | a one-pass scanner that decides each position reports exactly the FindAll matches |
| TableScan.FromJoinRefines | internal/agent/sql/validate.go:14 | the no-backtracking scanner for FROM/JOIN references decides the regular expression at every position of every text |
| TableScan.CteRefines | internal/agent/sql/validate.go:16 | the no-backtracking scanner for CTE headers decides the regular expression at every position of every text |
| TableScan.ReportedIsLongest | internal/agent/sql/validate.go:14 | the reported reference is the longest match the relation has at its position |
| TableScan.CteMatchUnique | internal/agent/sql/validate.go:16 | a CTE header matches in one way at most: end and name of every match of the relation are the reported ones |
| TableScan.ScanRefs | internal/agent/sql/validate.go:40 | the one-pass scan returns all FROM/JOIN matches Go reports |
| TableScan.ScanCtes | internal/agent/sql/validate.go:36 | the one-pass scan returns all CTE matches Go reports |
| TableCheck.KnownList | internal/agent/sql/validate.go:65-72 | the known list is the schema's names, sorted and joined |
| TableCheck.SortedIsSorted | internal/agent/sql/validate.go:65-72 | the list in the error text is in byte order and holds every schema name as often as the schema |
| TableCheck.OrderExact | internal/agent/sql/validate.go:70 | the order of the list is that of the first differing character, a prefix first |
| TableCheck.ErrorShowsTables | internal/agent/sql/validate.go:49-51 | the text that is fed back shows the unknown name and every table of the schema |
| TableCheck.KnownTables | internal/agent/sql/validate.go:31-38 | the in-place set ends as the lower-cased schema names and CTE names |
| TableCheck.ValidateTables | internal/agent/sql/validate.go:30-54 | the two match loops give the verdict and error text of the specification, the dead branch included |
| TableCheck.RefCaptured | internal/agent/sql/validate.go:40-44 | every capture is an optionally quoted run of word characters and dots, so none starts with a parenthesis |
| TableCheck.NormalizesToName | internal/agent/sql/validate.go:56-63 | whatever stands before the last dot and whatever quotes stand around the name, normalisation gives the name, as for `public."vehicles"` |
| TableCheck.SkippedExactly | internal/agent/sql/validate.go:45-48 | normalisation is empty exactly when the run ends in a dot, and is otherwise a plain word |
| TableCheck.LooksUpRun | internal/agent/sql/validate.go:40-49 | the name looked up for a reference is the part of its run after the last dot, where the run ends at the first character outside the class |
| TableCheck.NeverLookedUp | internal/agent/sql/validate.go:40-48 | in a query, a reference is skipped exactly when its run ends in a dot |
| TableCheck.PassesAnySchema | internal/agent/sql/validate.go:30-54 | a query passes with every schema iff each reported reference has a run that ends in a dot or names a CTE |
| References.HeadersAreReported | internal/agent/sql/validate.go:36-38 | no CTE header hides another: each one is reported at its own place |
| References.CteNamesExact | internal/agent/sql/validate.go:35-38 | a name counts as a CTE iff some header on the characters of the query defines it |
| References.AcceptsByHeaders | internal/agent/sql/validate.go:30-53 | acceptance iff each reported reference is skipped, in the schema, or defined by a header on the characters |
| References.DefinitionCounts | internal/agent/sql/validate.go:16-38 | a CTE definition of SQL counts under its own name iff it is plain: not recursive, not quoted, no column list, not materialized, and a blank after the comma |
| References.QuotedExact | internal/agent/sql/validate.go:14-49 | a quoted reference is checked as its own name iff the name is one word |
| References.SwallowedIsLookedUp | internal/agent/sql/validate.go:40-49 | a keyword swallowed by an earlier reference is what that reference is looked up as |
| References.EveryReferenceIsKnown | internal/agent/sql/validate.go:30-54 | if no table or CTE is called from or join, an accepted query has every occurrence of the reference expression reported at its own place, and skipped or known |
| TableCheck.AcceptsExactly | internal/agent/sql/validate.go:40-53 | acceptance iff every reported reference is skipped or known; then every occurrence is covered by such a reference |
| TableCheck.RejectionNamesUnknown | internal/agent/sql/validate.go:49-51 | a rejection names a captured table that is neither in the schema nor a CTE |
| TableCheck.Monotone | internal/agent/sql/validate.go:30-54 | enlarging the schema never turns acceptance into rejection |
| TableCheck.CheckSameFold | internal/agent/sql/validate.go:12-54 | match spans and the decision are independent of letter case |
| Guard.SplitStatements | internal/safety/guard.go:79-87 | the loop keeps the trimmed non-blank pieces between semicolons, in order |
| Guard.Check | internal/safety/guard.go:48-77 | the step-by-step check returns the specified verdict |
| Guard.NoStatements | internal/safety/guard.go:79-87 | no statement is found iff the text is blanks and semicolons |
| Guard.StatementsExact | internal/safety/guard.go:62-65 | at most one statement is found iff only blanks and semicolons follow the first semicolon |
| Guard.CheckLanguage | internal/safety/guard.go:48-77 | the exact accepted language: nothing but blanks and semicolons after the first semicolon, and SELECT or WITH as first field |
| Guard.AcceptedExactly | internal/safety/guard.go:48-77 | accepted iff nothing but blanks and semicolons follows the first semicolon and the first word is literally SELECT or WITH, in any case |
| Guard.CheckEmpty | internal/safety/guard.go:53-55 | a query is called empty iff it is blank but for at most one semicolon |
| Guard.CheckSameFold | internal/safety/guard.go:68-74 | the verdict, down to the keyword it names, is independent of letter case |
| Gate.HasLimitIff | internal/connector/postgres/postgres.go:29 | the expression matches iff a limit token stands between word boundaries somewhere |
| Gate.OutputShape | internal/connector/postgres/postgres.go:211-220 | every output has a limit token, starts with the stripped query, is trimmed and has SELECT or WITH as first word |
| Gate.DefaultLimit | internal/connector/postgres/postgres.go:216-218 | with the default row cap a query without a limit token gets LIMIT 1000 |
| Gate.CleanOutputIsFixpoint | internal/connector/postgres/postgres.go:211-220 | without a semicolon left the output is accepted again and is a fixpoint |
| Gate.StrayLimitIsStacked | internal/connector/postgres/postgres.go:215-218 | with a semicolon left and no limit token, Check refuses the output as two statements |
| Gate.ClosureExact | internal/connector/postgres/postgres.go:211-220 | the output is accepted again iff no semicolon is left or a limit token is there |
| Gate.IdempotenceExact | internal/connector/postgres/postgres.go:211-220 | validating twice is validating once iff no semicolon is left |
| Gate.StripAgain | internal/connector/postgres/postgres.go:215 | stripping an accepted text again removes one semicolon and the blanks before it, and keeps it accepted |
| Gate.OnePassShrinks | internal/connector/postgres/postgres.go:211-220 | with its own limit token, each pass shortens the query until it is a fixpoint |
| Gate.LimitedQuerySettles | internal/connector/postgres/postgres.go:211-220 | iterating then settles on the trimmed text before the first semicolon, within its length in passes |
| Gate.ValidateSameFold | internal/connector/postgres/postgres.go:211-220 | refusal and LIMIT injection are independent of letter case |
| Fence.ExtractHasNoFence | internal/agent/sql/text2sql.go:57-74 | extracted text is trimmed and never contains a fence |
| Fence.ExtractIsFinal | internal/agent/sql/text2sql.go:57-74 | extraction is idempotent |
| Fence.DropThenCut | internal/agent/sql/text2sql.go:64-72 | dropping the tag line never skips a closing fence: it equals cutting at the closing fence first |
| Fence.FencedBody | internal/agent/sql/text2sql.go:57-83 | from prose, a tagged fence with a body and any tail, exactly the trimmed body is extracted |
| Fence.UnclosedBody | internal/agent/sql/text2sql.go:57-83 | the same for a fence that is never closed |
| Fence.UntaggedBody | internal/agent/sql/text2sql.go:64-83 | a first line that is no tag stays in the body |
| Fence.DroppedExactly | internal/agent/sql/text2sql.go:64-83 | a first line is dropped iff it is letters and digits, or nothing, between blanks |
| Fence.UnfencedAnswer | internal/agent/sql/text2sql.go:57-62 | an answer without a fence is its trimmed text |
| JsonList.EscapeUndoes | internal/rag/llmrouter.go:70-73 | every escape sequence, surrogate pairs included, decodes to its character |
| JsonList.CharsUndoes | internal/rag/llmrouter.go:70-73 | every spelling of a string decodes to the string and stops at its closing quote |
| JsonList.FindArray | internal/rag/llmrouter.go:65-71 | the slice between the first opening and the last closing bracket is the array |
| JsonList.WrappedArrayParses | internal/rag/llmrouter.go:62-75 | any JSON spelling of any list of names, wrapped in prose, parses back to the list |
| JsonList.EveryListParses | internal/rag/llmrouter.go:62-75 | every list of strings rendered as JSON and wrapped in prose parses back to itself |
| JsonList.ParsesExactly | internal/rag/llmrouter.go:62-75 | a text is accepted with a list iff it is bracket-free prose around some legal JSON spelling of that list, nulls and lone surrogates included |
| JsonList.HexExact | internal/rag/llmrouter.go:70-73 | four hexadecimal digits stand for their number |
| JsonList.PairExact | internal/rag/llmrouter.go:70-73 | a surrogate pair stands for its character |
| Routing.FilterKnown | internal/rag/llmrouter.go:78-92 | the two loops over the known and seen maps compute look up each name, keep first occurrences |
| Routing.KnownMapExact | internal/rag/llmrouter.go:79-82 | the map holds, for each lower-cased name, the last table of that name |
| Routing.LookupExact | internal/rag/llmrouter.go:86 | a returned name resolves to a schema table equal to it up to case and outer blanks, and fails only if there is none |
| Routing.FilteredExact | internal/rag/llmrouter.go:77-92 | the filter keeps exactly the tables some name stands for, once each, all from the schema |
| Routing.FilteredIdempotent | internal/rag/llmrouter.go:77-92 | filtering twice is filtering once, for every schema |
| Routing.AllTableNames | internal/rag/llmrouter.go:94-100 | the fallback is the schema's names in order |
| Routing.Route | internal/rag/llmrouter.go:29-49 | the routing result, its errors and its fallback |
| Routing.RouteExactly | internal/rag/llmrouter.go:29-49 | for every answer: the three errors, exactly the tables some listed name names, once each in the order of their first mention, or all names if none is |
| Routing.RoutedTablesExact | internal/rag/llmrouter.go:44-48 | the sub-schema holds exactly the named tables, or all of the schema |
| Routing.Subset | internal/prompt/schema.go:43-55 | the loops keep the named tables in schema order |
| Routing.KeptExact | internal/prompt/schema.go:49-53 | a sub-schema holds every occurrence of a named table and nothing else |
| Routing.RoutedSubschema | internal/rag/llmrouter.go:29-49 | a successful routing selects a non-empty, order-preserving part of the schema, all of it under fallback, one table per name when names are distinct |
| Introspection.Draft.IntrospectColumns | internal/connector/postgres/postgres.go:104-139 | the loop builds the grouping of the rows read and its index map, on every way the stream can end |
| Introspection.Draft.IntrospectForeignKeys | internal/connector/postgres/postgres.go:141-168 | the pass appends to each table its own foreign keys in stream order and changes nothing else |
| Introspection.Draft.Introspect | internal/connector/postgres/postgres.go:71-102 | success iff the database, both streams, and the count and every probe of every table are answered; then every table has its rows, keys, count and samples |
| Introspection.Draft.FillTable | internal/connector/postgres/postgres.go:88-99 | success iff the count and every probe are answered; one table is filled and no other |
| Introspection.SampleValues | internal/connector/postgres/postgres.go:174-204 | the probe's values, cut to five, or none above the cardinality bound |
| Introspection.ProbeBoundExact | internal/connector/postgres/postgres.go:175-179 | a row bound on the probe decides as all distinct values would, for every column, iff it exceeds the cardinality bound |
| Introspection.GroupedNames | internal/connector/postgres/postgres.go:118-134 | index map and table list agree; names are distinct, in order of first appearance |
| Introspection.GroupedColumns | internal/connector/postgres/postgres.go:118-134 | each table's columns are its rows in stream order |
| Introspection.ContiguousFlattens | internal/connector/postgres/postgres.go:118-134 | grouping a contiguous stream loses nothing |
| Introspection.RoundTripExact | internal/connector/postgres/postgres.go:118-134 | flattening the tables gives back the stream iff the rows of each table stand together |
| Introspection.ForeignKeyStep | internal/connector/postgres/postgres.go:156-166 | one row of the foreign-key stream extends exactly its own table |
| KeyLaws.TableKeysExact | internal/connector/postgres/postgres.go:156-166 | the keys of each table are the rows of the stream that name it, in stream order, field by field |
| KeyLaws.KeysCounted | internal/connector/postgres/postgres.go:156-166 | a key is in the list of a table as often as the stream has its row |
| KeyLaws.KeyRoundTripExact | internal/connector/postgres/postgres.go:141-168 | flattening the keys gives back the stream iff its rows stand together in table order |
| KeyLaws.CompletedExact | internal/connector/postgres/postgres.go:87-99 | row counts are the counts; a column keeps none of more than fifty values, else the first five |
| KeyLaws.IntrospectedExactly | internal/connector/postgres/postgres.go:71-102 | a finished introspection, table by table, on the fields of the rows |
| Introspection.IntrospectedNamesDistinct | internal/connector/postgres/postgres.go:71-102 | the tables of a finished introspection have distinct names |
| Redaction.ReplaceIsMasking | internal/connector/redact.go:8-26 | replacing all matches of the expression is masking every value from left to right |
| Redaction.RedactionHidesPassword | internal/connector/redact.go:26 | the redacted text does not depend on the password, whatever stands around it |
| Redaction.RedactionIsIdempotent | internal/connector/redact.go:26 | redacting twice is redacting once |
| Redaction.PasswordIsStarred | internal/connector/redact.go:8-26 | with the words themselves: the value after password= becomes three stars, and does not show |
| Pipeline.Pipeline.RouteStage | internal/agent/pipeline.go:124-134 | the router's call, its deadline, its recorded stage and result |
| Pipeline.Pipeline.GenerateStage | internal/agent/pipeline.go:136-143 | the generator's call, its deadline, its recorded stage and result |
| Pipeline.Pipeline.Execute | internal/agent/pipeline.go:145-151 | the executor's call, its deadline, latency and result |
| Pipeline.Pipeline.Attempt | internal/agent/pipeline.go:96-120 | one iteration changes the answer exactly as a round prescribes |
| Pipeline.Pipeline.Correct | internal/agent/pipeline.go:94-121 | the loop refines the recursive rounds |
| Pipeline.Pipeline.Run | internal/agent/pipeline.go:71-122 | a run's answer, error, calls and end are those of the specification |
| PipelineLaws.RoundShape | internal/agent/pipeline.go:96-120 | a round is a failed generation, a generation with a failed stage, or a generation with an ok execution |
| PipelineLaws.RunFollowsGrammar | internal/agent/pipeline.go:71-122 | every trace follows the grammar, and Attempts counts the generation stages |
| PipelineLaws.TraceBounds | internal/agent/pipeline.go:71-122 | at most eight stages; no error iff the last stage is an ok execution |
| PipelineLaws.FeedbackIsExact | internal/agent/pipeline.go:94-121 | the first generation gets no prior error, each later one exactly the error that ended the attempt before |
| PipelineLaws.AnswerHoldsLastSql | internal/agent/pipeline.go:99-103 | Answer.SQL is the query of the last ok generation, even if a later one fails |
| PipelineLaws.EveryQueryIsGated | internal/agent/pipeline.go:96-120 | every submitted query passed the table check on the routed sub-schema; what may reach the database is its Validate output, with a limit token and SELECT or WITH as first word |
| PipelineLaws.ResultOnlyOnSuccess | internal/agent/pipeline.go:117-119 | rows are set iff there is no error, and are the database's answer to Answer.SQL |
| PipelineAnswers.EveryAnswerIsRecorded | internal/agent/pipeline.go:94-143 | each generation stage holds what became of the answer to exactly the logged prior error and sub-schema; each following stage the verdict of the table check, or what became of the execution |
| PipelineAnswers.IntentThenRouting | internal/agent/pipeline.go:77-134 | the run goes on to routing iff the classifier answers in scope; the first two stages hold the answers |
| PipelineAnswers.ErrorIsTheLast | internal/agent/pipeline.go:79-121 | the error of a run is that of its last stage, wrapped after three attempts |
| PipelineAnswers.PromptRunSucceeds | internal/agent/pipeline.go:71-119 | a run whose callees answer in time and whose checks pass succeeds at once, with the rows of the database |
| PipelineTime.RoundInTime | internal/agent/pipeline.go:136-151 | a round keeps its deadlines; after expiry it only tries the generator and fails |
| PipelineTime.RoundsInTime | internal/agent/pipeline.go:94-121 | the rounds end by the run's deadline, with at most two late calls |
| PipelineTime.RunInTime | internal/agent/pipeline.go:21-151 | every run ends within 30 s, each call has its stage's own deadline or the run's and keeps it, latencies add up to at most 30000 ms, at most two calls start after expiry |
| PipelineTime.StageBounds | internal/agent/pipeline.go:21-27 | a call of the router or the model takes at most 15 s, one of the executor at most 10 s |
| Executor.Service.OpenConnection | internal/executor/service.go:31-46 | an open registers the dialled connector and closes exactly the displaced one |
| Executor.Service.CloseConnection | internal/executor/service.go:72-82 | a close unregisters and closes exactly its own connector; unknown ids are a no-op |
| Executor.Service.ValidateAndExecute | internal/executor/service.go:60-70 | only the Validate output of the query is executed, on the connector of the id and no other |
| Executor.ServedExactly | internal/executor/service.go:60-70 | a text reaches the database iff the id is registered and the query accepted; otherwise the answer is the reason |
| Executor.StepKeepsOwned | internal/executor/service.go:31-46 | each atomic step keeps the ownership account of every connector |
| Executor.Ownership | internal/executor/service.go:31-92 | over every schedule each dialled connector is in flight once, registered once, or closed once: exactly one |
| Executor.RegisteredAreOpen | internal/executor/service.go:31-92 | registered connectors are open and pairwise distinct; none is closed twice |
| Executor.NoneLostAtRest | internal/executor/service.go:31-82 | with no open in flight, a connector is closed iff no id holds it |
| Executor.ClosedWhenTakenOut | internal/executor/service.go:39-82 | over every schedule, a connector is closed at a step iff that step takes it out of the map, and then once |
| Executor.EveryRunIsGated | internal/executor/service.go:57-70 | over every schedule, what reaches a database is a Validate output with a limit token and SELECT or WITH as first word, on a connector that was bound to the id |
| Executor.SameConnector | internal/executor/service.go:60-70 | the connector looked up validates and executes, whatever others do to the id in between |
| Sessions.Registry.Register | internal/session/session.go:54-92 | what a registration publishes, and exactly when a failed one leaves nothing on the server |
| RegistrationTime.RegisterBy | internal/session/session.go:57-72 | under the caller's deadline a failed introspection leaves its connection iff the cleanup is lost, and always if the deadline ended it |
| Sessions.Registry.Close | internal/session/session.go:103-108 | the session goes first, then the remote connection, unless that call is refused |
| Sessions.NextKeepsAccount | internal/session/session.go:57-108 | each step keeps the account of every server id: a session, leaked, or under way |
| Sessions.Invariant | internal/session/session.go:57-108 | the invariant over every schedule of registrations and closes, abandoned opens, closes and cleanups included |
| SessionHistory.HandedExactly | internal/session/session.go:57-92 | an id is handed out iff some caller began it, its open and then its introspection succeeded, and it was published |
| SessionHistory.SessionsExactly | internal/session/session.go:57-108 | the sessions are the published ids that nobody began to close |
| SessionHistory.FailedIsNoSession | internal/session/session.go:67-71 | an id whose introspection failed is never handed out and never a session |
| SessionHistory.RegistrationAlone | internal/session/session.go:57-92 | a registration that runs alone ends as the contract of Register says |
| SessionHistory.CloseAlone | internal/session/session.go:103-108 | a close that runs alone ends as the contract of Close says |
| Sessions.LeakedExactly | internal/session/session.go:57-108 | an id outlived a failed call iff some step of the schedule left its connection behind and no later close of it took effect |
| Sessions.AgreeExactly | internal/session/session.go:54-108 | at rest the sides agree iff no open took effect unseen, no cleanup was refused, and every refused close was made up for |
| Sessions.AgreeAtRest | internal/session/session.go:54-108 | if failed opens have no effect and closes take effect, the sides agree at rest |
| Deployment.Sides | internal/session/session.go:57-108 | each side of a joint schedule is a schedule of that side alone |
| Deployment.LinkHolds | internal/executor/service.go:31-82 | over every joint schedule the keys of the executor's map are the ids the protocol accounts for |
| Deployment.SessionsAreServed | internal/session/session.go:57-108 | over every joint schedule each session has a connection of its own in the executor's map, and it is open |
| Deployment.MapsAgreeExactly | internal/session/session.go:54-108 | at rest the two maps have the same keys iff the schedule orphaned nothing and made up for every refused close |
| Deployment.NothingLostAtRest | internal/executor/service.go:31-82 | then every connector ever dialled belongs to a session or was closed once |
| Deployment.LostReplyLeaks | internal/session/session.go:64-66 | a joint schedule in which a failed registration leaves an open connection without a session |
| Findings.FromVerdict | internal/agent/sql/validate.go:30-54 | a query with one FROM passes iff the name of its run is empty or known |
| Findings.TwoSemicolons | internal/connector/postgres/postgres.go:211-220 | `SELECT 1;;` is accepted, its output refused as two statements, and validating again fails |
| Findings.QualifiedQuotedPasses | internal/agent/sql/validate.go:40-48 | `select * from a."b"` passes the guard, and the table check with every schema |
| Findings.QuotedBlankIsCut | internal/agent/sql/validate.go:14 | `select * from "vehicles x"` passes iff the schema holds vehicles |
| Findings.RecursiveCteRefused | internal/agent/sql/validate.go:35-38 | a query on its own recursive CTE passes the guard and is refused unless the schema holds a table of that name |
| Findings.ColumnListRefused | internal/agent/sql/validate.go:35-38 | the same for a CTE with a column list |
| Findings.CommaWithoutBlankRefused | internal/agent/sql/validate.go:35-38 | the same for a second CTE after a comma with no blank |

## Left out

- Characters outside ASCII: Unicode white space, Unicode case folding and the folds of `(?i)` onto U+017F and U+212A are not modelled; such characters count as neither letters nor white space here.
- MCP transport, client and tool wiring: a remote call is one step that may fail before, after or without its effect; the prefixes these layers add to error texts are not modelled.
- Language model providers and the two registries of providers and dialects: HTTP and switch tables, represented by oracles.
- `postgres.New`, `Execute` and the SQL of the catalog queries: the driver and the server are foreign code. Read-only enforcement, the statement timeout and row caps inside the database are not claimed.
- No claim that a connector is still open while it executes: the lookup releases the lock first.
- Redaction.RedactKeyValue: only the key=value branch; the URI branch of `RedactDSN` depends on net/url. Values quoted around blanks are masked up to the blank, as in the source.
- Executor.RefusalText: `%q` is modelled as surrounding quotes; Go's escapes for unusual characters inside a refused keyword are not.
- JsonList.ParseArray: which error encoding/json reports for a text that is not an array of strings is not modelled, only that there is one.
- JsonList.WrappedArrayParses: stated for prose without an opening bracket before the array and without a closing bracket after it; other prose can change the slice.
- Pipeline.Env: the parent context's cancellation before its deadline appears as a callee's early failure; the classifier may answer on an expired context, the other callees fail on one.
- Deployment.Step: the registry is the executor's only client for opening and closing; other clients of the same executor are not modelled. A remote open that takes effect and its reply are one step, since nobody else knows the fresh id in between.
- Trace and connection ids are taken to be fresh; their randomness is not modelled.
- `prompt.Schema`, `buildPrompt` and `routingPrompt`: free text with no reader on this side. `normalize`, `RedactKey`, `truncate` and `clip`: one-branch helpers. The command-line wizard: user interface.
- Result values are texts; the conversion of database values is not modelled.
