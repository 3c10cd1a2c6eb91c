# MaluDB API: a verified model

This project models the parts of the MaluDB API server whose behaviour is decided by its own Python code, and proves what
those parts promise. `dafny verify dfyconfig.toml` checks everything.

## What is modelled

**The query compiler** (`scanners`, `filters`, `query_parser`, `where_compiler`, `rest_writes`, and their theorem files,
of which `request_theorems`, `rest_routes` and `request_rows` go from the text of a request to the rows). What a request
asks for is told apart from the parser: `numerals` and `literals` say which texts spell a number, a truth value or a
float, `wishes` what a condition asks of a column, and `asked` which columns, order and page a request wants.
The server accepts PostgREST-style query parameters in two dialects, a lenient one for its own resources and a strict one
for user tables, and turns them into SQL text with a parallel list of parameters. The hand-written scanners are methods
over an index or a buffer, proved equal to recursive readers. A filter is a value of the `Filter` type; `EmitQuery` writes
it as SQL tokens whose texts, concatenated, are the statement. What a statement *means* is defined independently: a
recursive-descent reader for SQL's boolean grammar and statement forms (`sql_logic`, `statements`) binds the parameters in
order of appearance, and an evaluator runs the result on a row in three-valued logic. The compiler is correct when reading
its output gives back what the client asked for. psycopg's own scan for `%s` and `%%` is modelled character by character,
and `sql_words` is a lexer for the text the server then receives: in every statement it reads exactly the words of the
tokens.

**The verified answer** (`answer_text`, `answer_words`, `answer_passages`, `answer`, `answer_runs`, `retrieval`): quote
normalisation, the three span
patterns and exactly which quoted passages they examine, the check of citations and spans, the two-attempt loop for an
arbitrary model, and the merge of per-subject searches into evidence.

**Ids under an advisory lock** (`id_protocol`): any number of subject and project batches as interleaved steps of begin,
lock, insert, commit and abort, with READ COMMITTED visibility, and deletions in between.

**Text and vectors** (`chunking`, `embedding`, `vector_literal`, `escapes`): the chunking loop, the stand-in embedding
over the reals, the decimal literal of a vector, the LIKE pattern and the array literal.

**Stores** (`profile_store`, `sealed_store`, `document_graph` with `document_links` and
`document_primaries`, `project_links`): classes whose
methods change their fields the way the routes change their tables. Each method's contract ties the new state to a
function of the old one, and the lemmas are about every run of those functions.

**Canonical forms** (`bundle`, `subject_types`, `recall`): the bundle text and the materiality screens, the resolution of
subject types, and the merge of recalls over namespaces.

`results`, `text`, `values` and `sorting` are shared vocabulary: the API's errors, Python's string operations, bound
values and their coercion, and a stable sort.

## Reading the model

- Errors are constructors of `ApiError`; the texts of the messages are not modelled.
- A column expression is an atom of the SQL grammar: the routes write it, the client never does. For user tables it is the
  quoted column name, and the theorems about placeholders hold for every name.
- What the database does with two values (order, equality, LIKE, regular expressions, text search) is a parameter: a `Row`
  answers every comparison, and the proofs hold for all of them. NULL is explicit.
- The cipher is a pair of functions with two assumptions: a token opens with the key that made it and with no other.
  Encryption draws a nonce, so sealing twice may give two tokens. Keys are compared as texts: the last character of a
  base64 key has bits that are not used, so several texts denote one Fernet key, and the second assumption speaks of
  keys written in one form.
- Hash functions, the model, `math.sqrt` and the database's case folding (`escapes`) are parameters; `lower()` in the
  answer and the query grammar (`text`) changes A-Z and the Kelvin sign.
- Where code and documentation differ the code is modelled: the canonical bundle text sorts whole lines, hash first,
  although its docstring says by path; unlinking a name as a subject also moves the primary project; and the answer
  route says that every quoted span is checked (app/routers/memory_answer.py:19-20), while its scan of straight quotation
  marks takes both marks of each match, so that after a long run between two marks the next one, which shares a mark with
  it, is passed over. `Answer.FabricationIsReleased` is such a run; `AnswerPassages.StraightExamined` is the exact
  condition. Nor is a quotation broken over a line examined (`AnswerPassages.SpansOnOneLine`,
  `Answer.BrokenQuotationIsReleased`).

## Model

| member | source | states |
|---|---|---|
| `Scanners.SplitQuotedList` | app/helpers/query.py:329-371 | the index-scanning loop ends and returns exactly the items, or the refusal, of the list read one value at a time |
| `Scanners.SplitListOfPrinted` | app/helpers/query.py:329-371 | every list of strings survives printing and splitting, its items quoted, whatever their characters, or bare where they can stand so, in any mixture |
| `Scanners.QuoteFreeSplitList` | app/helpers/query.py:287-303 | on quote-free text the scanner and the lenient split-strip-filter comprehension return the same list |
| `Scanners.SplitTop` | app/helpers/query.py:374-394 | the depth-counting loop returns the pieces between top-level commas, a negative depth included |
| `Scanners.SplitTopQuoted` | app/helpers/query.py:397-431 | the loop with depth, quote and escape state returns the pieces between commas outside parentheses and quotes, or refuses what is left open |
| `Scanners.SplitJoined` | app/helpers/query.py:397-431 | pieces that are closed in themselves come back whole when joined by commas and split again |
| `Scanners.SplitTopJoined` | app/helpers/query.py:374-394 | the same for the lenient splitter, to which quotes are ordinary characters |
| `Scanners.QuoteFreeSplitTop` | app/helpers/query.py:374-431 | on quote-free text that the quoted splitter accepts, the plain splitter cuts at the same commas |
| `GroupRoundTrip.ParsePrinted` | app/helpers/query.py:206-241 | negation, operator, language and value printed with dots are recovered by the operator parser |
| `GroupRoundTrip.UnquoteQuoted` | app/helpers/query.py:255-261 | unquoting a double-quoted, escaped text gives the text back, whatever its characters |
| `GroupRoundTrip.MemberRoundTrip` | app/helpers/query.py:264-326 | one printed condition that the dialect can carry reads back as the column, operator, negation and values meant, or as the same error |
| `GroupRoundTrip.GroupReadsBack` | app/helpers/query.py:374-455 | conditions that the dialect can carry, printed as a group with any of their values quoted, read back as exactly those filters in order; the empty group is refused |
| `GroupRoundTrip.UsualIsCarried` | app/helpers/query.py:374-455 | values that are quoted, or have no comma, parenthesis or quote, can always be carried: quoted ones by the strict dialect, bare ones by both |
| `GroupRoundTrip.QuotedGroupReadsBack` | app/helpers/query.py:397-455 | any conditions with arbitrary text in their values, printed strictly with every value quoted, read back as exactly those filters |
| `GroupRoundTrip.BareGroupReadsBack` | app/helpers/query.py:374-455 | the same in either dialect for groups printed without quotes |
| `Dialects.ConditionAgrees` | app/helpers/query.py:264-326 | a quote-free condition that the strict dialect accepts is the same filter in the lenient one |
| `Dialects.GroupAgrees` | app/helpers/query.py:434-455 | a quote-free group that the strict dialect accepts is the same list of filters in the lenient one |
| `Literals.ParseIntIsSpelled` | app/helpers/query.py:177-193 | a text is read as an integer exactly when, blanks around it apart, it is an optional sign and decimal digits with single underscores between them, and then as the number those digits denote |
| `Literals.ShownReadsBack` | app/helpers/query.py:177-193 | every integer printed in decimal, with any sign it may carry, blanks around it and underscores in it, reads back as itself |
| `Literals.ParseBoolIsSpelled` | app/helpers/query.py:177-193 | a text is read as a truth value exactly when it is true, t or 1, or false, f or 0, in any case, and then as the one it names |
| `Literals.CoerceIsSpelled` | app/helpers/query.py:177-193 | a filter value is bound as a value exactly when its text spells that value for the type of the column, and is refused exactly when it spells none |
| `Wishes.ScalarTestIsWished` | app/helpers/query.py:264-326 | the test read from an operator and a text is the one they ask for: text operators on text columns only, a star for any characters, the word of an `is` in any case, and otherwise the value spelled |
| `Wishes.ListTestIsWished` | app/helpers/query.py:287-303 | the test read from a list is one of the values its items spell, refused when there is no item or one spells none |
| `Asked.GetIsLast` | app/helpers/query.py:616-637 | of repeated keys the last one counts |
| `Asked.ReadsLimit` | app/helpers/query.py:631-637 | the limit is the number written, or the default when none is; over the maximum it is the maximum when clamping and refused otherwise, and a negative or unreadable one is refused |
| `Asked.ReadsOffset` | app/helpers/query.py:631-637 | the offset is the number written, or none; a negative or unreadable one is refused |
| `Asked.OutputsAreAsked` | app/helpers/query.py:616-622 | the outputs are the columns listed under `select`, item by item, or else the default ones; a list is refused exactly when it asks for no such columns |
| `Asked.OrderIsAsked` | app/helpers/query.py:624-629 | the order is the one listed under `order`, term by term, or else the default one; an order is refused exactly when it asks for none there is |
| `Asked.ReadsAsked` | app/helpers/query.py:579-660 | apart from its filters, a request is accepted exactly when there are columns, an order and a page as it asks for, and is then read as asking for those |
| `WhereCompiler.ReadsWhere` | app/helpers/query.py:264-326 | the emitted WHERE text, read by the boolean grammar of SQL with the parameters bound in order, is the tree of the filters: no precedence, negation or placeholder is mistaken |
| `WhereCompiler.WhereTreeMeans` | app/helpers/query.py:434-455 | that tree evaluates, in three-valued logic on every row, to the conjunction of filters, negations, IN lists and or/and groups |
| `WhereCompiler.WhereIsCorrect` | app/helpers/query.py:579-614 | for every list of parsed clauses, the empty one included, the emitted WHERE is read to its end with every parameter used, and is true of exactly the rows for which every clause is, in three-valued logic |
| `WhereCompiler.InIsAny` | app/helpers/query.py:287-303 | an IN list is the three-valued disjunction of equalities, NULL cells included |
| `RequestTheorems.RequestReadsBack` | app/helpers/query.py:579-614 | conditions, implicit equalities and or/and groups, written as request parameters in any order among any others, are read as exactly the clauses meant, their values those the texts spell, or refused with the first error, in either dialect |
| `RequestTheorems.RequestIsCorrect` | app/helpers/query.py:579-614 | from request text to rows, in either dialect: the WHERE built from those parameters holds of a row exactly when, in three-valued logic, every condition and group the client wrote does for the values its texts spell; without any, every row is kept |
| `QueryParser.BuildBoolGroup` | app/helpers/query.py:434-455 | the loop over group members builds the text and parameters of the group read as a list of filters, with the same error first |
| `QueryParser.BuildSelect` | app/helpers/query.py:494-525 | the loop builds the select list and the selected names that `SelectOrder` gives a meaning to, or the same first error |
| `SelectOrder.SelectMeans` | app/helpers/query.py:494-525 | a select list, however written, is accepted exactly when each of its items that is not blank is, and blank items add nothing |
| `SelectOrder.SelectListReadsBack` | app/helpers/query.py:494-525 | a printed select list reads back as exactly the columns and names wished for |
| `QueryParser.BuildOrder` | app/helpers/query.py:534-562 | the loop builds the ORDER BY terms that `SelectOrder` gives a meaning to, or refuses |
| `SelectOrder.OrderMeans` | app/helpers/query.py:534-562 | an order is accepted exactly when it has a term and every term is accepted, and then asks, in order, for what each term says |
| `SelectOrder.OrderReadsBack` | app/helpers/query.py:534-562 | printed order terms read back as exactly the columns, directions and null placements wished for |
| `QueryParser.BuildOrderTerm` | app/helpers/query.py:534-562 | a term is accepted exactly for a known column and known modifiers, is descending exactly when its last asc or desc says so, and places nulls as its last nulls modifier says, if it has one |
| `QueryParser.ColumnParts` | app/helpers/query.py:588-601 | the loop over query keys emits the clauses of the column filters, which `RequestTheorems` ties to what the client wrote |
| `QueryParser.GroupParts` | app/helpers/query.py:603-611 | each or/and parameter adds one group, in the order given |
| `QueryParser.WherePieces` | app/helpers/query.py:588-614 | columns first, then or-groups, then and-groups, with the first error of that order |
| `QueryParser.ParseQuery` | app/helpers/query.py:579-660 | the assembled fragments and parameters are those of the request read as filters, groups, select, order, limit and offset, which `RequestTheorems.RequestReadsBack` and `Asked.ReadsAsked` tie to what the client wrote; errors come in the same order |
| `SqlText.QuotedIdentReadsBack` | app/helpers/query.py:471-483 | a quoted identifier, sent through psycopg, reads back as the very column name, quotes and percent signs included |
| `SqlText.QuotedIdentScansClean` | app/helpers/query.py:471-483 | no name can smuggle in a placeholder or a scan error |
| `SqlText.PlaceholdersAligned` | app/helpers/query.py:639-647 | for clean tokens the scan finds exactly one placeholder per parameter token, each between the texts of its neighbours |
| `SqlWords.FixedLexes` | app/helpers/query.py:264-326 | the text of every fixed token reads, to a lexer, as the key words, operator or mark it stands for |
| `SqlWords.ReadsWords` | app/helpers/query.py:639-647 | the text of tokens that may stand beside each other, as the server receives it with its parameters in place, reads as exactly the words of the tokens: nothing runs together and nothing is split |
| `PlaceholderTheorems.AcceptedQueryIsClean` | app/helpers/query.py:579-660 | every accepted request yields pieces whose spliced texts are literal to psycopg and whole by themselves to the server, when the column expressions are |
| `PlaceholderTheorems.ReflectedSpecIsClean` | app/helpers/query.py:471-483 | column expressions made by quoting always are, so the reflected tables need no assumption on names |
| `PlaceholderTheorems.SelectAligned` | app/helpers/query.py:639-647 | the SELECT of every accepted request has as many placeholders as parameters, in the same order, and its text reads as exactly the words of its tokens |
| `PlaceholderTheorems.UpdateAligned` | app/routers/rest.py:318-344 | the same for every UPDATE that is built, whatever body, filters and window |
| `PlaceholderTheorems.DeleteAligned` | app/routers/rest.py:347-362 | the same for every DELETE |
| `PlaceholderTheorems.InsertAligned` | app/routers/rest.py:213-296 | the same for every INSERT, whatever columns, items, conflict clause and representation |
| `StatementTheorems.SelectReadsBack` | app/routers/rest.py:411-432 | the SELECT text with its parameters is, to the server, the projection, filter, order, limit and offset asked for |
| `RestWrites.BuildUpdate` | app/routers/rest.py:318-344 | the loop over the body builds the SET list and its parameters before those of the WHERE, or refuses an empty body or unknown column |
| `StatementTheorems.UpdateReadsBack` | app/routers/rest.py:318-344 | an UPDATE is built exactly for a body with a key and no unknown one; it assigns every key of the body its own value, as jsonb exactly for an object or for a value that is not null in a json or jsonb column, to exactly the targeted rows |
| `StatementTheorems.DeleteReadsBack` | app/routers/rest.py:347-362 | the built DELETE deletes exactly the targeted rows |
| `RestWrites.UnionOfKeys` | app/routers/rest.py:231-236 | without a column list the insert columns are the keys of all items, each once, in first-seen order |
| `RestWrites.UnionIsFirstSeen` | app/routers/rest.py:231-236 | in that list no key repeats, a key is there exactly when some item has it, and of two keys the one seen first stands first |
| `RestWrites.AllKeysMatch` | app/routers/rest.py:271-285 | the check that a merge upsert misses no key says so exactly when every item has every insert column |
| `RestWrites.BuildTuples` | app/routers/rest.py:247-256 | the nested loops write one placeholder per present key and DEFAULT per missing one, with the parameters in step |
| `RestWrites.BuildInsert` | app/routers/rest.py:213-296 | the builder returns the planned INSERT, or the same first error |
| `InsertTheorems.InsertReadsBack` | app/routers/rest.py:213-296 | an INSERT is built exactly when there are columns and a conflict target for it as the request lists them or the items and the primary key give them; read back with its parameters, it holds for every item and column the value sent, as jsonb exactly for an object or for a value that is not null in a json or jsonb column, or DEFAULT exactly when the key is missing, and on a conflict fails, skips, or overwrites exactly the columns outside the target |
| `InsertTheorems.PlanIsPlanned` | app/routers/rest.py:220-292 | which columns and which conflict target an insert has, or that it has none: lists, known names, the primary key, one row of defaults, and a merge without a column list |
| `InsertTheorems.EveryKeyIsStored` | app/routers/rest.py:231-256 | without a column list every key of every item is an insert column, and the row holds the very value sent there |
| `InsertTheorems.MergeHasNoDefault` | app/routers/rest.py:271-285 | a merge upsert without a column list never overwrites a stored value with DEFAULT |
| `InsertTheorems.ConflictResolves` | app/routers/rest.py:286-292 | without a resolution a conflict fails; ignoring duplicates, or with no column left, it skips; a merge overwrites exactly the insert columns outside the conflict target, each as often as it is listed and with its own value |
| `WriteWindows.WriteTouchesTheChosen` | app/routers/rest.py:299-362 | executing a built UPDATE or DELETE touches exactly the offset-then-limit of the ordered matching rows, or every match without an explicit window; touched and untouched rows make up the table |
| `WriteWindows.WriteTouchesThisMany` | app/routers/rest.py:299-315 | how many rows a write touches, exactly |
| `WriteWindows.WindowIsExplicit` | app/routers/rest.py:381-399 | the window is the numbers the client wrote, and a limit over the maximum is refused, never clamped |
| `WriteWindows.ParsedLimitIsUnused` | app/helpers/query.py:631-647 | the limit and offset the parser fills in or clamps never reach a write |
| `RestRoutes.CheckDebugValue` | app/routers/rest.py:124-138 | the loop refuses a request when any value under `debug` is not a trace flag |
| `RestRoutes.PassesExactlyWhen` | app/routers/rest.py:124-162 | the check of keys passes exactly when every key is allowed and whatever stands under `debug` is a trace flag |
| `RestRoutes.GetCore` | app/routers/rest.py:411-432 | the read route checks the keys, parses and builds the SELECT, with the errors in that order |
| `RestRoutes.DeleteCore` | app/routers/rest.py:480-491 | the delete route checks the keys, parses, takes the written window and builds the DELETE |
| `RestRoutes.UpdateCore` | app/routers/rest.py:466-477 | the update route checks the keys and the body, parses, takes the written window and builds the UPDATE |
| `RestRoutes.InsertCore` | app/routers/rest.py:435-463 | the insert route checks its own keys, reads the select list when it is needed and builds the INSERT |
| `RestRoutes.UnknownKeysAreRefused` | app/routers/rest.py:141-162 | no route builds a statement for a request with an unknown key or a filter under `debug` |
| `RestRoutes.InsertHasNoFilter` | app/routers/rest.py:151-162 | an insert that is let through has no filter in it to be ignored |
| `RequestRows.ConditionsAreOnColumns` | app/routers/rest.py:124-148 | in a request that passes the check every condition is on a column and none stands under `debug` |
| `RequestRows.AcceptedExactlyWhen` | app/routers/rest.py:141-148 | a request is let through exactly when its keys are allowed, every condition and group in it is on known columns and understood, so that none is dropped, and it asks for columns, an order and a page there are; it is then read as asking for those |
| `RequestRows.SelectReturnsTheKept` | app/routers/rest.py:411-432 | from request to rows: the route accepts exactly those requests; its SELECT returns the columns asked for of the rows for which everything the client wrote holds, in the order asked for, from the offset written on, at most the limit written of them, or the default |
| `RequestRows.DeleteTouchesTheKept` | app/routers/rest.py:480-491 | the route accepts exactly those requests unless they write a limit over the maximum; it deletes exactly the rows within the written window of those for which everything the client wrote holds |
| `RequestRows.UpdateTouchesTheKept` | app/routers/rest.py:466-477 | the same requests and the same rows for an UPDATE, whose body must be an object with a key and no unknown one, and whose values are assigned as they are sent |
| `RequestRows.InsertStoresTheRows` | app/routers/rest.py:435-463 | the route accepts exactly the inserts with only its own keys, a plan, and an answer to what is wanted back; it stores for every row and planned column the value sent, or DEFAULT exactly where the key is missing |
| `ValueIndependence.SameShapeSameText` | app/helpers/query.py:579-660 | two accepted requests with the same keys, whose filters and groups differ in values only, have identical SELECT text and as many parameters |
| `ValueIndependence.SameShapeSameWrites` | app/routers/rest.py:299-362 | so have their DELETEs, and their UPDATEs when the bodies have the same keys, with or without a window |
| `ValueIndependence.GroupValuesStayOut` | app/helpers/query.py:434-455 | no value in a printed group, quoted or bare, can change the SQL text |
| `AnswerText.NormIsNormal` | app/routers/memory_answer.py:89-91 | a normalised text is trimmed and lower-case, and its only blanks are single spaces |
| `AnswerText.NormIdempotent` | app/routers/memory_answer.py:89-91 | normalising twice is normalising once |
| `AnswerWords.NormIsWords` | app/routers/memory_answer.py:75-91 | a normalised text is exactly the words of the text, each without its case and with plain quotes and dashes, one space between them |
| `AnswerText.FoundInOne` | app/routers/memory_answer.py:107-121 | a normalised span is found in the joined texts exactly when one single text holds it: no match crosses a separator |
| `AnswerText.CollectSpans` | app/routers/memory_answer.py:94-101 | the loops over the three patterns return each distinct stripped span once; `AnswerPassages` says which those are |
| `AnswerText.SpansAreTheGroups` | app/routers/memory_answer.py:94-101 | a span is returned exactly when some pattern match, stripped, is that text |
| `AnswerPassages.LongRunIs` | app/routers/memory_answer.py:64-84 | a long run is exactly the text between a mark and the next closing mark, at least 20 characters on one line |
| `AnswerPassages.StraightExamined` | app/routers/memory_answer.py:82-83 | a run of at least 20 characters between straight marks on one line is examined exactly when an even number of back-to-back long runs end at the mark that opens it |
| `AnswerPassages.AllStraightExamined` | app/routers/memory_answer.py:82-83 | every such run is examined exactly when none starts at the mark where another ends |
| `AnswerPassages.CurlyExamined` | app/routers/memory_answer.py:84 | between curly marks a long run is matched by itself exactly when no earlier one reaches over it |
| `AnswerPassages.BlocksAre` | app/routers/memory_answer.py:85 | every block-quote match is the rest of a line after a mark that only blanks separate from a line start |
| `AnswerPassages.QuoteLineCovered` | app/routers/memory_answer.py:85 | every line of a block quote with at least 20 characters, not all blank, lies within a match |
| `AnswerPassages.SpansAreExactly` | app/routers/memory_answer.py:81-101 | the spans that are looked up are exactly the stripped examined runs, foremost curly runs and block groups |
| `AnswerPassages.SpansInOrder` | app/routers/memory_answer.py:94-101 | the spans stand in the order of the patterns: straight runs, then new curly runs, then block quotes |
| `AnswerPassages.PassageIsLookedUp` | app/routers/memory_answer.py:81-101 | every quoted passage, curly or block or an examined straight one, is part of a span that is looked up |
| `AnswerPassages.NormHolds` | app/routers/memory_answer.py:89-91 | normalising keeps every trimmed part of a text, so what holds for a span holds for its parts |
| `AnswerPassages.SpansOnOneLine` | app/routers/memory_answer.py:81-101 | no span that is looked up reaches over a line |
| `Answer.Verify` | app/routers/memory_answer.py:104-128 | the loop sorts citations into good and bad and lists the spans not found |
| `Answer.BadSpansAre` | app/routers/memory_answer.py:119-121 | the bad spans are exactly the quoted spans that lie in no single evidence item |
| `Answer.AnswerCore` | app/routers/memory_answer.py:371-414 | the two-attempt loop, with its usage counters, early exits and rounded confidence, is the run described by the specification |
| `Answer.AnswerIsSafe` | app/routers/memory_answer.py:371-414 | over every run and every model: no call without evidence, at most two calls, usage is their sum, unverified only after two, and an answer that is released is cited, each quote lies in its own item, and every quoted passage, curly, block or examined straight, lies in one single item |
| `AnswerRuns.FailuresAreFaults` | app/routers/memory_answer.py:104-128 | what the check reports of a reply is exactly the quotes that are too short or not in their own item, in order, and then the quoted spans that are in no item |
| `AnswerRuns.EveryRunIsSettled` | app/routers/memory_answer.py:371-414 | every run told from the replies alone: when a second call is made and with which failures, when it is an error, and what the last reply settles: the faults and no answer, or the answer with one entry per citation object in order, its own number and quote and the chunk and document of its item, and the mean similarity of the cited items to a thousandth |
| `Answer.EveryLongRunIsHeld` | app/routers/memory_answer.py:371-414 | in a released answer where no long run starts at the mark where another ends, every long run between straight marks lies in one single item |
| `Answer.SkippedPassageIsReleased` | app/routers/memory_answer.py:82-83 | a short quotation before a long one: with the words between them in the evidence the answer is released, whatever the long quotation says |
| `Answer.FabricationIsReleased` | app/routers/memory_answer.py:82-83 | a run that releases a long quoted passage no evidence holds |
| `Answer.BrokenQuotationIsReleased` | app/routers/memory_answer.py:81-86 | an answer that is one quotation broken over a line is released with any valid citation, whatever the quotation says |
| `Answer.FailsOnlyOnUnreadableReply` | app/routers/memory_answer.py:371-390 | the error reply arises exactly when a call that was made returned no JSON object |
| `Answer.VerifiedFirstReplyIsReleased` | app/routers/memory_answer.py:371-414 | nothing verified is withheld: a sufficient, cited first reply whose quotes and spans all hold is released after one call |
| `Retrieval.DropDeletedDocuments` | app/routers/memory.py:546-552 | the rows returned are, apart from their ranks, the first of those that name no document or a live one, in order, and none of those is passed over while the limit is not filled; the ranks count from one |
| `Retrieval.OverfetchIsExact` | app/routers/memory.py:546-632 | fetching three times the limit, or 600, and dropping the hits of deleted documents gives a prefix of the first live hits of the whole ranking, and all of them exactly when the limit is filled or no live hit lies beyond what was fetched |
| `Retrieval.OverfetchFillsTheLimit` | app/routers/memory.py:589-619 | up to a limit of 200 the answer is ideal whenever at most twice the limit of the fetched hits were of deleted documents |
| `Retrieval.MergeEvidence` | app/routers/memory_answer.py:200-250 | the nested loops keep the best hit per chunk in first-seen order, then sort, cut and number |
| `Retrieval.EvidenceIsSound` | app/routers/memory_answer.py:200-250 | the evidence is numbered from one, best first, within the limit and without repeated chunks; every item is a hit of some subject with a chunk, a similarity not under the floor and some text, of which it carries the first 2000 characters |
| `Retrieval.EvidenceIsGlobalBest` | app/routers/memory_answer.py:200-224 | no such hit of any subject is passed over for a worse one, even one its own search did not return |
| `Recall.MergeRecall` | app/routers/agent_memory.py:82-96 | the loops with the seen set, the sort and the cut return the specified list with ranks from one |
| `Recall.RecallIsBest` | app/routers/agent_memory.py:82-96 | every reported row is the first met with its key, the order is best first with missing similarities last, and no cut row precedes a reported one |
| `Recall.RecallHasNoRepeats` | app/routers/agent_memory.py:82-96 | no chunk of a namespace is reported twice |
| `IdProtocol.EveryRunIsSafe` | app/helpers/writes.py:40-59 | in every interleaving of any number of subject and project batches and deletions under READ COMMITTED, committed ids are unique, each batch's ids consecutive, and an aborted batch leaves nothing |
| `IdProtocol.LocksAreReleased` | app/helpers/writes.py:40-59 | when no batch is running no lock is held |
| `IdProtocol.HolderCanProceed` | app/routers/subjects.py:233-274 | a batch that holds the lock can always insert its next row or commit |
| `IdProtocol.DifferentNamesCollide` | app/routers/projects.py:162-188 | with two lock names there is a run that commits one id twice |
| `IdProtocol.SharedNameIsNeeded` | app/helpers/writes.py:40-59 | ids stay unique over all runs if and only if the two endpoints name the same lock |
| `Chunking.MemChunk` | app/helpers/llm.py:119-150 | the loop ends for every text, limit and overlap and returns the specified chunks |
| `Chunking.FindCut` | app/helpers/llm.py:136-144 | the loop over separators finds the first separator with a place past the middle |
| `Chunking.SliceAt` | app/helpers/llm.py:132-145 | the slice at a position ends at the cut when there is one, else at the limit |
| `Chunking.CutIsPreferred` | app/helpers/llm.py:136-144 | a cut is the last place of the first separator, in the order paragraph, sentence, word, that occurs past the middle |
| `Chunking.ChunksAreSliced` | app/helpers/llm.py:119-150 | the whole cutting: a text within the limit is one chunk; otherwise each slice ends with the text, or after the last place past the middle of the first of paragraph, sentence and word break that has one, or at the limit, the next starts as far on as the stripped piece is long less the overlap, and at least one further, and the pieces that are not blank are the chunks |
| `Chunking.ChunksAreChunked` | app/helpers/llm.py:119-150 | every chunk is a non-empty trimmed piece of the text within the limit, starts never go back, and every non-blank character lies in some chunk |
| `Chunking.StartsAdvance` | app/helpers/llm.py:145-149 | chunk starts never go back |
| `Chunking.AllCovered` | app/helpers/llm.py:132-149 | no non-blank character is skipped by an advance |
| `Chunking.AtMostOneChunkPerCharacter` | app/helpers/llm.py:119-150 | there are no more chunks than characters in the stripped text, and none exactly for a blank text |
| `Chunking.BuildRememberEdges` | app/routers/agent_memory.py:65-79 | the nested loops build one edge per subject and chunk, in order |
| `Chunking.EverySubjectCoversTheText` | app/routers/agent_memory.py:65-79 | for every text and subject, every non-blank character lies in the text of some edge of that subject |
| `Embedding.EmbedDeterministic` | app/helpers/llm.py:51-71 | the nested loops give exactly the asked number of components, together of length one, the i-th drawn from the i-th byte of the hash blocks, laid evenly between -1 for 0 and 1 for 255 |
| `VectorLiteral.FmtReadsBack` | app/helpers/llm.py:383-385 | each number is written as the nearest eight-place decimal without trailing zeros or point, and reads back as it |
| `VectorLiteral.LiteralReadsBack` | app/helpers/llm.py:377-387 | the literal reads back as the components in order, each within half a unit of the eighth place |
| `ProfileStore.Store.PutEntry` | app/routers/principals.py:115-141 | a PUT goes through exactly when it is allowed, and then sets one key of one profile to the value and the stripped note, answering the new id and the superseded row |
| `ProfileStore.PutRefusedExactlyWhen` | app/routers/principals.py:32-53 | a PUT is allowed exactly for a label of the principal and one of the key, a value that is not null of at most 8000 bytes, and room among 200 entries or the key among them; what is said of a refused one |
| `ProfileStore.CleanNoteIsKept` | app/routers/principals.py:132 | the note kept is the one sent without the blanks around it, or none when nothing else is in it |
| `ProfileStore.Store.DeleteEntry` | app/routers/principals.py:144-158 | a DELETE is a 404 exactly when the key is not live and otherwise removes that key only |
| `ProfileStore.Store.Write` | app/routers/principals.py:75-99 | one row is appended, naming the newest row of its key |
| `ProfileStore.NewestKnown` | app/routers/principals.py:56-72 | there is a newest row exactly when the key was ever written, and it is a row of that principal and key |
| `ProfileStore.ProfileIsAPlainMap` | app/routers/principals.py:56-158 | through every serial run, reads and replies are those of one plain map per principal |
| `ProfileStore.LiveEntriesAreCapped` | app/routers/principals.py:126-131 | no principal ever has more than 200 live entries |
| `ProfileStore.RowsNeverChange` | app/routers/principals.py:75-99 | no row is ever changed or removed, and every row supersedes the newest earlier one of its key |
| `ProfileStore.SupersedesVisitsEveryRow` | app/routers/principals.py:75-99 | following supersedes from the newest row meets every row of the key exactly once, newest first, and ends at null |
| `ProfileStore.EveryRun` | app/routers/principals.py:56-176 | all of this for every run that starts with no profile |
| `SealedStore.SealOpens` | app/store_crypto.py:73-99 | whatever is stored for a secret reads back as it, also under the sealing key alone |
| `SealedStore.SealRefuses` | app/store_crypto.py:73-84 | sealing is refused exactly for an unusable key, or with no key for a secret that looks sealed |
| `SealedStore.OpensWithItsKey` | app/store_crypto.py:87-99 | a genuine sealed value opens exactly when its key is in the ring, else it is an error, never the token text |
| `SealedStore.JoinedKeysConfigure` | app/store_crypto.py:46-62 | well-formed keys joined by commas configure exactly that ring, in that order |
| `SealedStore.BadKeysConfigure` | app/store_crypto.py:46-62 | the variable is malformed exactly when one of its keys is, and blank text sets nothing |
| `SealedStore.NewKeyInFront` | app/store_crypto.py:46-57 | a new key in front changes nothing the ring could read |
| `SealedStore.AuthStore.SealAll` | app/seal_store.py:44-63 | the nested loops seal every selected row of every column in one transaction, or leave the store as it was |
| `SealedStore.AuthStore.SealTable` | app/seal_store.py:50-62 | one column: each selected row is opened, sealed, opened again and updated, in order |
| `SealedStore.SealTablesMeans` | app/seal_store.py:44-63 | a sweep goes through exactly when every row it must open can be opened, and then each row keeps its secret |
| `SealedStore.RotationKeepsSecrets` | app/seal_store.py:44-63 | re-sealing a readable store succeeds, keeps every secret, makes it readable under the first key alone, and leaves nothing for a plain sweep |
| `SealedStore.NewKeyAloneReadsAll` | app/seal_store.py:44-63 | add a key, re-seal, drop the old keys: every secret is unchanged and readable with the new key alone |
| `SealedStore.NoPlainSecretLeft` | app/seal_store.py:35-41 | after a sweep the survey counts no plain secret |
| `SealedStore.AuthStore.Survey` | app/seal_store.py:35-41 | sealed and plain secrets per column add up to the non-blank ones |
| `SealedStore.AuthStore.UserProviderKey` | app/auth_store.py:153-164 | the row of that user and provider with its secret opened, nothing when there is none, an error when it cannot be opened |
| `SealedStore.AuthStore.UpsertUserProviderKey` | app/auth_store.py:184-203 | the new store is the specified upsert, and a failure leaves the store as it was |
| `SealedStore.UpsertKeepsSecret` | app/auth_store.py:184-203 | an upsert without a key keeps the stored secret and sets the address; no other row changes |
| `SealedStore.SecretsSurviveEveryRun` | app/auth_store.py:184-203 | through every run of sweeps and upserts, failed ones included, a secret no command replaces stays readable and the same |
| `DocumentGraph.UniqueNames` | app/routers/documents.py:283-296 | the loop returns the distinct trimmed non-blank names |
| `DocumentGraph.Store.LinkSubject` | app/helpers/documents.py:44-118 | resolve or create, edge and tag, field by field; a blank name is nothing and an unknown kind a refusal that changes nothing |
| `DocumentGraph.Store.UnlinkSubject` | app/helpers/documents.py:125-185 | edge, primary and tag, field by field, with the same two special cases |
| `DocumentGraph.Store.LinkNames` | app/routers/documents.py:313-319 | the loop links the names in order and remembers the first |
| `DocumentGraph.Store.UnlinkNames` | app/routers/documents.py:308-311 | the loop unlinks the names in order |
| `DocumentGraph.Store.Wire` | app/routers/documents.py:233-248 | projects, subjects, then adoption of the first project when there is no primary |
| `DocumentGraph.Store.Patch` | app/routers/documents.py:275-332 | unlinks come first, then links, then adoption; a missing document or an empty change is refused |
| `DocumentGraph.Neighbors` | app/helpers/documents.py:192-214 | one row per document, the first one, and no document left out |
| `DocumentLinks.TagIffEdge` | app/helpers/documents.py:44-118 | in every sound state a tag for a link exists exactly when its edge does |
| `DocumentLinks.TagIffEdgeAfterEveryRun` | app/helpers/documents.py:44-118 | after every run from no document a tag for a link exists exactly when its edge does, and exactly when the plain set has the link |
| `DocumentLinks.LinkedSound` | app/helpers/documents.py:44-118 | linking adds exactly one link and keeps everything, the types of known subjects included |
| `DocumentLinks.UnlinkedSound` | app/helpers/documents.py:125-185 | unlinking removes exactly one link and leaves other documents' primaries alone |
| `DocumentLinks.EveryRunIsSound` | app/routers/documents.py:231-391 | from any sound state, through every run of uploads, changes, single links and deletions, tags mirror edges, a primary is null or a linked project, and the links are those of a plain set |
| `DocumentLinks.EveryRunFromEmpty` | app/routers/documents.py:231-391 | the same for every run that starts with no document |
| `DocumentLinks.LinkTwiceIsOnce` | app/helpers/documents.py:44-118 | linking twice is linking once |
| `DocumentLinks.UnlinkUndoesLink` | app/helpers/documents.py:125-185 | unlinking a fresh link gives back the tags and edges there were |
| `DocumentLinks.PrimaryIsLostExactlyWhen` | app/helpers/documents.py:168-178 | exactly when unlinking a name, under any kind, leaves a document without the primary it had |
| `DocumentLinks.LinkedProjectMayLackPrimary` | app/helpers/documents.py:168-178 | a run after which a project is linked and the primary is null |
| `DocumentPrimaries.ChangeKeepsPrimaryExactlyWhen` | app/routers/documents.py:275-332 | a whole change keeps "a linked project implies a primary" exactly when it links a project, or no subject it unlinks bears the name of the one project left after its unlinks |
| `ProjectLinks.Store.Replace` | app/routers/projects.py:394-460 | refusals for a missing project, a missing list and a bad element, in that order, change nothing; otherwise the project's links of that kind become exactly the listed ones, and the reply lists each once, by name |
| `ProjectLinks.Wanted` | app/routers/projects.py:402-413 | the distinct listed ids, or the refusal of the whole list for one bad element |
| `Escapes.SequentialIsPerCharacter` | app/routers/chat.py:166 | the three successive replaces are one escape per character: none acts on what an earlier one inserted |
| `Escapes.SearchIsContainment` | app/routers/chat.py:160-180 | a search text shorter than two characters is refused, and any other finds exactly the texts that contain it, case apart |
| `Escapes.ArrayReadsBack` | app/routers/chat.py:48-49 | every list of texts survives its array literal |
| `Bundle.CanonicalForgetsOrder` | app/helpers/skills.py:44-53 | the canonical text is the same for every ordering of the files |
| `Bundle.CanonicalDeterminesFiles` | app/helpers/skills.py:44-53 | for one-line paths and 64-character hashes, equal texts if and only if equal multisets of files |
| `Bundle.MaterialityScreens` | app/helpers/skills.py:65-114 | the verdict is material exactly when one of five frontmatter keys holds something else, as Python compares values, or a file other than SKILL.md differs; the reasons are exactly those, keys as listed and then paths in order; otherwise it is non-material exactly when the texts have the same words |
| `Bundle.SortedPaths` | app/helpers/skills.py:98-106 | the paths of both bundles, each once, in order |
| `Bundle.EqualTextNoFileReason` | app/helpers/skills.py:98-106 | bundles with distinct paths and equal canonical text give no file reason |
| `SubjectTypes.Catalogue.ResolveSubjectTypes` | app/helpers/subject_types.py:26-50 | although the catalogue grows as it goes, every type is resolved as against the initial one, so order does not matter, and exactly the missing registrable slugs are added |
| `SubjectTypes.ResolvedIs` | app/helpers/subject_types.py:22-50 | which type a declared one is ingested under: itself or its slug when the catalogue has it, its slug when that is a name that can be registered, else the preferred or a generic type |
| `SubjectTypes.ResolvedLater` | app/helpers/subject_types.py:35-49 | one step of that: looking into the grown catalogue answers as the initial one would |

## Left out

- SQL outside the emitted forms: the reader knows the statement shapes the builders write and nothing else.
- Lenient SELECT statements: their WHERE clause and placeholders are covered, but the read-back of a whole statement is
  stated for the strict dialect, whose aliases are quoted; a bare alias is one token of the select list.
- SqlText.PlaceholdersAligned: psycopg accepts more than `%s` and `%%`; the model counts `%b`, `%t` and `%(name)s` as scan
  failures, which the builders never write.
- SqlWords.ReadsWords: the lexer knows words, operators, quoted names and single marks; string constants, comments and
  dollar quotes, which the builders never write, are outside it.
- Characters outside ASCII: `int()` and `float()` read ASCII digits only, and `lower()` changes A-Z and the Kelvin sign.
- Floating point: a float filter value keeps its text, similarities and confidences are reals without rounding, negative
  zero and non-finite components of a vector do not occur.
- Values.Coerce: a float column keeps the accepted text, so two texts of one number are two values.
- `build_where`, `content_range`, `resolve_total` and its EXPLAIN estimate, the Prefer headers and HEAD requests: single
  expressions or calls into the database.
- `_shape_write` and the rollback of a single-object write that touched several rows; reflection of user tables.
- Routing, authentication, JSON parsing, LLM and embedding calls, the MCP dispatch and the CRUD routes.
- The choice of subjects and the document lookups around `retrieve_evidence` and `search_core`; searches return whatever
  ranking the engine gives.
- Retrieval.DropDeletedDocuments: the rows are a sequence value, so the in-place write of `rank_no` is a new sequence.
- Answer.AnswerCore: evidence is numbered without repeats, as the merge does; building the prompt messages is not modelled,
  and the confidence is rounded from exact reals.
- Answer.AnswerIsSafe: quoted passages are those of the three patterns; a straight run that shares its opening mark with an
  examined one, or any run broken over a line, is not among them, because the code does not look at it.
- AnswerText.NormIsNormal: `lower()` is the folding of A-Z and the Kelvin sign; other letters keep their case.
- RequestTheorems.RequestIsCorrect: requests are those the grammar can carry: a bare list item has no comma, a bare value in
  a group no comma or parenthesis that would split it, and a value without operator does not start with one.
- IdProtocol.EveryRunIsSafe: two lock names with one hash, and writers that never take the lock, are outside the protocol;
  so are serialisation failures other than an abort.
- Embedding.EmbedDeterministic: exact real arithmetic with an exact square root.
- ProfileStore.ProfileIsAPlainMap: serial runs only, since the cap is checked outside the transaction that writes; the
  order of keys in the reply, timestamps and the length of the JSON text (a parameter) are not modelled.
- SealedStore.AuthStore.SealAll: a row is identified by its place in its table, and UTF-8 encoding of secrets is left out.
- SealedStore.AuthStore.UpsertUserProviderKey: rows are unique per user and provider, as the table demands; timestamps,
  users, prompts and model choices are not modelled.
- DocumentLinks.EveryRunIsSound: every link carries the default provenance, canonical names are unique, the engine's
  statement facade is idempotent, subjects are not renamed, and deletion is the route's own fallback, not the engine's
  `maludb_forget_document`.
- ProjectLinks.Store.Replace: the reply lists ids, without names and types; the order of names is the database's.
- Escapes.SearchIsContainment: case folding maps characters one to one and leaves the three special characters alone.
- Escapes.ArrayReadsBack: the reader of array literals knows quoted elements, the only ones written. `_pg_text_array`
  in app/routers/memory.py does not escape backslashes and has no such round trip.
- Bundle.CanonicalDeterminesFiles: the hash of the text is not modelled, so equal hashes are not claimed to mean equal texts.
- `build_reindex_params`, `deterministic_discovery`, `coerce_skill_extraction`, `as_items`, chat appends and the notes,
  pools, episodes and attributes routes: single-branch facts.
