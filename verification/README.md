# pigo, verified in Dafny

A model of the parts of pigo where a mistake would lose or corrupt data, with proofs of what those parts promise:

- **The filter compiler** of the REST server (`FilterGrammar`, `FilterParsing`, `FilterPrinting`, `Spellings`, `Sql`, `FilterSql`, `FilterMeaning`, `Comparisons`, `Placeholders`, `Query`, `Statements`, `OrderBy`, `ArrayLiteral`). The cursor-based parser is a class over a mutable position, proved against a grammar. Rendering appends to one shared list of bind parameters. The generated SQL is a list of tokens that is read back by a small reader with PostgreSQL's operator precedence (section 4.1.6 of the PostgreSQL manual) and evaluated in three-valued logic.
- **Change replication** (`Cdc`, `WalLoop`, `Replica`): the decoder of logical replication messages with its relation cache, the streaming loop, and the PostgreSQL sink that replays events as INSERT and UPDATE statements built from maps in arbitrary order.
- **The pipeline fan-out** (`Transform`, `TransformMeaning`, `Fanout`): transformation chains over events that share their schema fields, distribution to bounded queues that drop when full, and the whole running system as interleaved steps of source goroutines and any number of consumers.
- **Smaller cores**: the JSON path evaluator (`Jq`), MQTT topics (`Mqtt`), the expiring cache (`Cache`) and the pool manager (`Pool`). `Text`, `Options` and `JsonData` hold strings, missing values and JSON values.

Main results, in order of weight:

1. `FilterMeaning.MeaningPreserved`: the WHERE clause of every accepted filter list means the conjunction of its filters, on every row and under any semantics of the individual operators. `TreesCompile` joins it with the round trip: every list of well-formed trees can be written, is accepted, and means what the trees mean.
2. `Spellings.AcceptedIsSpelled` and `SpelledIsAccepted`: the parser against the filter language stated as a relation between texts and trees. Every accepted text spells the tree it is read as, and every clear spelling, with any quoting, escapes, blanks and letter case, is read as its tree. `FilterPrinting.ParseUndoesPrint` and `AcceptedIsWellFormed`: parsing undoes printing on exactly the trees the parser can produce. `Comparisons.ComparisonHolds` and `MembershipHolds` say from the client's text which rows a filter selects.
3. `Replica.MirrorExactly`: over every run of inserts and updates the sink's tables equal the source's after every change, if and only if every update that the sink takes, having an old tuple and its key, leaves out only null columns, and every other changes nothing.
4. `Statements.TextsSelect`, `InsertReads`, `UpdateReads`, `SelectReads` and `DeleteReads`, and the `...Parameters` lemmas of `Query`: the text of each statement, read back clause by clause, asks for exactly what was requested; SELECT, UPDATE and DELETE apply to the same rows; every statement mentions exactly the parameters it binds, and each placeholder stands for its own value.
5. `Fanout.Conservation`, `Fanout.NonInterference` and `Fanout.NeverBlocked`: in every interleaving each pipeline is given exactly the events its sources received, nothing is lost or counted twice on the way to the sinks, no other pipeline and no full queue changes what a queue is offered, and no full queue stops a source. `StepsAreFanOut` and `FanOutIsSteps` join the steps to the loop over subscriptions.
6. `WalLoop.LoopFollowsHistory`: position, relation cache and the whole output, each status report in the turn it is due, are what the history of inputs says, and the loop ends exactly where the history says.
7. `Transform.StagesAreOneChain`, `ExtractCommutesWithRename`, `FateIsFixed` and `EventKeepsFields`: laws of transformation chains over every order in which Go may visit a map. `TransformMeaning.FilterDecides` says from a filter's configuration which events it keeps.
8. `OrderBy.ParseUndoesPrint` and `ParsePrintParse`, `Jq.Query`, `Mqtt.TopicRoundTrip`, `Mqtt.MessageRead`, `Mqtt.MatchIsStandard`, `ArrayLiteral.ConvertReadsBack`, `Cache.GetIsLastUnexpired`, and the class invariant of `Pool.PoolManager`.

`dafny verify dfyconfig.toml` checks the project. Modules follow the packages of the repository. A method that changes state is proved equal to a function of the old state (named after it), and the theorems are about those functions.

## Where the code and its documentation disagree

The model follows the code in each case.

- `pkg/rest/doc.go:18` and the claim of PostgREST compatibility suggest `col.desc.nullsfirst`. The code strips the direction first, so the direction must come last. `OrderBy.DirectionMustBeLast` shows that a term written the other way round is read as ordering by a column called `col.desc`, and `OrderBy.NullsAfterSimilarity` that a nulls position after a similarity term is not read and undoes an `.asc` before it.
- `pkg/rest/util.go:31` escapes quotes but not backslashes. `ArrayLiteral.ConvertReadsBack` shows that the converted literal reads back as intended if and only if no part has a backslash.
- `pkg/pipeline/peer/pg/peer.go:129-131` means to accept deletes and do nothing. A delete has no after image, so line 93 refuses it with "not connected" first (`Replica.DeletesAreNotReplicated`).
- `pkg/pipeline/peer/pg/peer.go:114-120` takes the key of an update from the old tuple. With the default replica identity the server sends none when the key stays the same, and the update is then refused (`Replica.UpdateNeedsOldTuple`); only the error text names the remedy. `Replica.MirrorExactly` states exactly which runs are mirrored.
- `pkg/pglogrepl/util.go:19-20` turns an unchanged TOAST column into nil. `Cdc.DecodeUndoesEncode` shows that a row decodes to itself if and only if the columns left out this way are null, and `Replica.MirrorExactly` what that means for the sink.
- `pkg/pipeline/transform/replace.go:101-107` writes the schema fields through an array that copies of the event share. `Transform.EventKeepsFields` says exactly when an event leaves them as they were: when it reaches no valid replace with an entry for one of the fields other than from the field to itself with a display name that is empty or the same. `Transform.FieldsLeak` is an input that violates it. Payloads are never affected.
- `pkg/pipeline/transform/replace.go:121-130` renames columns in Go's map order, so an event with two columns renamed to one name keeps either value. `Transform.RenamingsAreOrders` says which results are possible; all laws of chains hold for each of them, and what is kept, dropped or failed does not depend on the order (`Transform.FateIsFixed`).
- The replication settings take `*` for all tables (`docs/pipeline-example.docker.yaml:8`). In a filter's `tables` and `excludeTables`, a pattern without a schema leaves the empty pattern for the schema (`pkg/pipeline/transform/filter.go:126-181`) and so names no table: `TransformMeaning.PatternNeedsSchema`. There only `*.*` names all.
- Blanks are skipped after the commas of a logic tree but not after those of a list (`pkg/rest/filter.go:378-408`), so `in.(1, 2)` has the item ` 2` (`Spellings.PlainListReads`).
- An MQTT topic whose first segment after the operation is `batch` is taken for a batch (`pkg/pipeline/peer/mqtt/peer.go:168`). `Mqtt.TopicRoundTrip` shows that this is the only ambiguity.

## Model

| member | source | states |
|---|---|---|
| FilterParsing.FilterParser.ParseQuoted | pkg/rest/filter.go:496-517 | the loop with escapes agrees with the grammar's quoted string, and on failure the cursor has not moved |
| FilterParsing.FilterParser.ParseQuotedElement | pkg/rest/filter.go:486-493 | a quoted element must be followed by a comma, a closing parenthesis or the end; otherwise the cursor is restored |
| FilterParsing.FilterParser.ParseName | pkg/rest/filter.go:412-433 | quoted names, and bare names with inner dashes that do not start an arrow, agree with the grammar |
| FilterParsing.FilterParser.ParseArrayIndex | pkg/rest/filter.go:463-481 | an index must be a whole token in 32-bit range; otherwise nothing is consumed |
| FilterParsing.FilterParser.ParseJsonPath | pkg/rest/filter.go:436-459 | the loop over arrows reads the grammar's path |
| FilterParsing.FilterParser.ParseOperand | pkg/rest/filter.go:356-373 | verbatim outside trees; inside, quoted, braced or up to a comma or parenthesis, with backtracking |
| FilterParsing.FilterParser.ParseList | pkg/rest/filter.go:378-408 | parenthesised lists with quoted items, and the bare comma-separated form outside trees |
| FilterParsing.FilterParser.ParseOp | pkg/rest/filter.go:272-350 | negation, operator, modifiers and operand agree with the grammar, errors included |
| FilterParsing.FilterParser.Group | pkg/rest/filter.go:206-231 | recursive groups with the depth limit agree with the grammar; the recursion ends because every condition consumes input |
| FilterParsing.FilterParser.ParseMember | pkg/rest/filter.go:235-268 | the four group prefixes are told apart from a leaf as in the grammar |
| FilterParsing.ParseFilterKey | pkg/rest/filter.go:175-192 | the whole key is a field, and embedded resources are refused |
| FilterParsing.ParseRawFilter | pkg/rest/filter.go:134-170 | on every key and value the parser ends and gives the grammar's tree or error |
| FilterGrammar.ParseGroup | pkg/rest/filter.go:206-231 | every successful group consumes input |
| FilterGrammar.ParseCondition | pkg/rest/filter.go:235-268 | every successful condition consumes input |
| FilterGrammar.OperationConsumes | pkg/rest/filter.go:272-350 | every successful operation consumes input |
| FilterPrinting.QuotedUndoesQuote | pkg/rest/filter.go:486-517 | reading a quoted and escaped string gives it back, as a name and as an element |
| FilterPrinting.NameUndoesPrint | pkg/rest/filter.go:412-433 | names read back verbatim, bare or quoted, up to what may follow a name |
| FilterPrinting.NameIsNoIndex | pkg/rest/filter.go:463-481 | a printed key such as 2fa is never taken for an array index |
| FilterPrinting.IndexUndoesPrint | pkg/rest/filter.go:463-481 | every 32-bit index reads back from its decimal form |
| FilterPrinting.PathUndoesPrint | pkg/rest/filter.go:436-459 | every path of keys and indices reads back |
| FilterPrinting.ListUndoesPrint | pkg/rest/filter.go:378-408 | every list of strings reads back, the empty list and empty strings included |
| FilterPrinting.OperandUndoesPrint | pkg/rest/filter.go:356-373 | operands read back: verbatim, bare, as a brace literal or quoted |
| FilterPrinting.OperationUndoesPrint | pkg/rest/filter.go:272-350 | every well-formed operation reads back |
| FilterPrinting.MemberStartsLeaf | pkg/rest/filter.go:235-268 | a printed condition is never taken for a nested group, even for a column called not, and or or |
| FilterPrinting.MemberUndoesPrint | pkg/rest/filter.go:235-268 | every well-formed node reads back as a member of a group |
| FilterPrinting.GroupUndoesPrint | pkg/rest/filter.go:206-231 | every well-formed group within the depth limit reads back |
| FilterPrinting.FieldKeyIsNotLogic | pkg/rest/filter.go:131-141 | the key of a column filter is never taken for that of a logic tree |
| FilterPrinting.ParseUndoesPrint | pkg/rest/filter.go:134-192 | parsing the printed key and value of any well-formed tree gives the tree, in both printing styles |
| FilterPrinting.AcceptedGroup | pkg/rest/filter.go:80-81 | accepted groups are non-empty and nested at most 32 deep |
| FilterPrinting.AcceptedIsWellFormed | pkg/rest/filter.go:134-268 | every accepted filter is well-formed, so parse, print, parse gives the first tree again |
| Spellings.AcceptedIsSpelled | pkg/rest/filter.go:134-517 | every accepted key and value spell the tree they are read as, nested at most 32 deep, in the filter language as a relation: characters, escapes, operators, modifiers, lists and groups written out |
| Spellings.SpelledIsAccepted | pkg/rest/filter.go:134-517 | every clear spelling of a tree, with any quoting, escapes, blanks and letter case, is accepted and read as that tree, so it spells no other |
| Spellings.BareListReads | pkg/rest/filter.go:378-386 | items without commas, joined by commas without parentheses, are read as exactly these items |
| Spellings.PlainListReads | pkg/rest/filter.go:378-408 | the same between parentheses with blanks after either; blanks after a comma belong to the item |
| Spellings.IsReadsAnyCase | pkg/rest/filter.go:293-307 | the five values of is are read in any letter case |
| Spellings.GroupBlanks | pkg/rest/filter.go:206-231 | blanks after the parentheses of a group change nothing |
| ArrayLiteral.PgArrayLiteral | pkg/rest/filter.go:702-720 | both loops build the encoded literal |
| ArrayLiteral.ReadUndoesEncode | pkg/rest/filter.go:699-720 | read by section 8.15.6 of the PostgreSQL manual, the literal gives back every list of strings |
| ArrayLiteral.ConvertToPostgresArrayOrJSON | pkg/rest/util.go:8-39 | the loop over parts computes the conversion |
| ArrayLiteral.ConvertIdempotent | pkg/rest/util.go:8-39 | converting twice is converting once, on every input |
| ArrayLiteral.ConvertReadsBack | pkg/rest/util.go:8-39 | input that the converter encodes reads back as its trimmed non-empty parts if and only if none has a backslash |
| ArrayLiteral.ShorthandReads | pkg/rest/util.go:8-39 | plain items joined by commas convert to a literal that reads back as the items |
| ArrayLiteral.BracesRead | pkg/rest/util.go:8-39 | the same for items in braces |
| FilterSql.FindColumn | pkg/rest/filter.go:731-738 | a column of that name, or none exists |
| FilterSql.ArgList.Add | pkg/rest/filter.go:722-729 | appends the value and returns the placeholder with its position |
| FilterSql.RenderField | pkg/rest/filter.go:674-697 | path steps are bound in order, and the text mentions them at their positions |
| FilterSql.RenderCondition | pkg/rest/filter.go:621-669 | text and parameters of a condition after any number of earlier parameters; unknown columns are errors |
| FilterSql.RenderNode | pkg/rest/filter.go:593-619 | groups are parenthesised and negated nodes become NOT (...); the first unknown column in tree order is the error |
| FilterSql.BuildWhereClause | pkg/rest/filter.go:115-129 | the joined clause and its parameters, or the first error, over the shared list |
| FilterMeaning.FieldReads | pkg/rest/filter.go:674-697 | a rendered field reads back as one primary expression |
| FilterMeaning.ConditionReads | pkg/rest/filter.go:621-669 | every condition, unparenthesised, reads back as the expression meant, whatever follows it |
| FilterMeaning.NodeReads | pkg/rest/filter.go:593-619 | a node between AND, OR, NOT and parentheses reads back whole |
| FilterMeaning.GroupReads | pkg/rest/filter.go:593-619 | the members of a group read back as their left-nested AND or OR |
| FilterMeaning.InValue | pkg/rest/filter.go:640-669 | = ANY of the encoded list is membership in the list, in three-valued logic |
| FilterMeaning.ConditionValue | pkg/rest/filter.go:621-669 | under its bound parameters the expression of a condition has the condition's truth value |
| FilterMeaning.NodeValue | pkg/rest/filter.go:593-619 | the same for trees, negation of unknown included |
| FilterMeaning.MeaningPreserved | pkg/rest/filter.go:112-129 | for every accepted filter list, row and operator semantics, the clause read back and evaluated is the conjunction of the filters' meanings |
| FilterMeaning.TreesCompile | pkg/rest/filter.go:112-192 | every list of well-formed trees over the table's columns, written as query parameters, is accepted, and its clause means the conjunction of the trees |
| Comparisons.ComparisonHolds | pkg/rest/filter.go:652-669 | under operators that compare, column=op.t for eq, neq, gt, gte, lt and lte holds on exactly the rows whose value compares that way with t, and not.op on those whose does not |
| Comparisons.MembershipHolds | pkg/rest/filter.go:629-632 | in, in any spelling of its list, holds on exactly the rows whose value equals an item |
| Comparisons.QuantifiedHolds | pkg/rest/filter.go:664-668 | op(any) and op(all) hold on exactly the rows whose value compares that way with some or every element of the array |
| Comparisons.OperatorTokens | pkg/rest/filter.go:36-55 | the SQL of all eighteen comparing operators, plain and quantified, written out |
| Comparisons.OperandBound | pkg/rest/filter.go:652-662 | like and ilike bind their pattern with every * as %, the others their operand as it is |
| Comparisons.ShorthandBound | pkg/rest/filter.go:656-661 | cs.a,b on an array column binds a literal that reads back as the parts |
| Comparisons.TextSearchTokens | pkg/rest/filter.go:639-650 | the query constructor of each full-text operator, and to_tsvector around anything but a tsvector column |
| Comparisons.TestTokens | pkg/rest/filter.go:628-637 | the SQL of in, is with each of its values, and isdistinct |
| Comparisons.PathTokens | pkg/rest/filter.go:674-697 | arrows, casts and to_jsonb of a path step |
| Placeholders.FieldPlaced | pkg/rest/filter.go:674-697 | a field mentions exactly its own parameters and is renumbered as a whole |
| Placeholders.ConditionPlaced | pkg/rest/filter.go:621-669 | the same for every kind of condition, with the text search configuration bound once and mentioned up to twice |
| Placeholders.NodePlaced | pkg/rest/filter.go:593-619 | the same for trees |
| Placeholders.WherePlaced | pkg/rest/filter.go:112-129 | after k earlier parameters the clause mentions exactly $k+1 to $k+n, and after k + j it is the same clause with numbers raised by j |
| Query.ParseQueryFilters | pkg/rest/query.go:58-72 | the loop over sorted keys collects the filters of the keys that are not reserved |
| Query.NoFilterDropped | pkg/rest/query.go:58-72 | a filter is collected if and only if it is a value of a key that is not reserved |
| Query.RenderOrder | pkg/rest/query.go:177-197 | order terms with their similarity parameters; unknown columns and directions are errors |
| Query.RenderAssignments | pkg/rest/query.go:247-294 | one value and one placeholder for each key, in order, or the first error |
| Query.BuildSelect | pkg/rest/query.go:108-145 | the whole SELECT with one numbering over WHERE, ORDER BY, LIMIT and OFFSET |
| Query.BuildUpdate | pkg/rest/query.go:247-294 | the whole UPDATE with SET before WHERE in one numbering |
| Query.BuildDelete | pkg/rest/query.go:297-323 | the whole DELETE |
| Query.BuildInsert | pkg/rest/query.go:200-244 | the whole INSERT |
| Query.SelectParameters | pkg/rest/query.go:108-145 | the placeholders are exactly $1 to $n for n bound values |
| Query.UpdateParameters | pkg/rest/query.go:247-294 | the placeholders are exactly $1 to $n for n bound values |
| Query.DeleteParameters | pkg/rest/query.go:297-323 | the placeholders are exactly $1 to $n for n bound values |
| Query.InsertParameters | pkg/rest/query.go:200-244 | the placeholders are exactly $1 to $n for n bound values |
| Query.InsertPairs | pkg/rest/query.go:200-244 | the statement lists the columns of the data and, in the same order, value texts each with the placeholder of its own value |
| Query.UpdatePairs | pkg/rest/query.go:247-294 | each column is set to the text with the placeholder of its own value, whatever WHERE binds after |
| Query.OrderAsked | pkg/rest/query.go:177-197 | each similarity term mentions the placeholder of its own search text, other terms none |
| Query.PageAsked | pkg/rest/query.go:134-141 | LIMIT and OFFSET are followed by the placeholders of the requested numbers |
| Query.SameRows | pkg/rest/query.go:108-323 | with the same filters SELECT (before LIMIT and OFFSET), UPDATE and DELETE pick exactly the rows on which all filters hold |
| Statements.SelectReads | pkg/rest/query.go:108-145 | the text of a SELECT reads back as its column list, its table, the filters' condition, its order terms, and limits bound to the numbers asked for |
| Statements.UpdateReads | pkg/rest/query.go:247-294 | the text of an UPDATE reads back as one assignment for each key, carrying its value, on the rows under the filters' condition |
| Statements.InsertReads | pkg/rest/query.go:200-244 | the text of an INSERT reads back as the keys' columns and, in the same order, the values carried, one bound value for each |
| Statements.DeleteReads | pkg/rest/query.go:297-323 | the text of a DELETE reads back as its table and the filters' condition |
| Statements.TextsSelect | pkg/rest/query.go:108-323 | read back from their texts, SELECT, UPDATE and DELETE apply to exactly the rows on which all filters hold; without filters, to all |
| Statements.OrderReads | pkg/rest/query.go:177-197 | each order term reads as its column or similarity, ASC or DESC, NULLS FIRST or LAST, as asked; anything else is refused |
| Statements.ColumnTokens | pkg/rest/query.go:347-359 | how each kind of column is listed |
| Statements.ReturningIsSelectAll | pkg/rest/query.go:325-334 | RETURNING lists what a SELECT of everything lists |
| Statements.SelectionByName | pkg/rest/query.go:147-170 | the list is made name by name: * is every column, unknown names are left out |
| Statements.AssignmentsAccepted | pkg/rest/query.go:209-225 | keys are accepted if and only if each is a column and each object for a composite encodes |
| Statements.WritesAccepted | pkg/rest/query.go:200-294 | an INSERT or UPDATE is built if and only if there are keys, all are accepted, and the filters are |
| Query.ValueCarried | pkg/rest/query.go:367-380 | null, text and values of plain columns are bound as they are; other values for composites encoded, as a record of the column's own type |
| OrderBy.SplitOrder | pkg/rest/order_by.go:79-111 | the loop cuts at the commas outside parentheses and drops an empty last part |
| OrderBy.SplitLosesNothing | pkg/rest/order_by.go:79-111 | joining the parts gives the input back up to one trailing comma, and no part has a separator left |
| OrderBy.SplitUndoesJoin | pkg/rest/order_by.go:79-111 | splitting joined parts gives them back if and only if they have no separator and all but the last close their parentheses |
| OrderBy.SimilarityIsMatch | pkg/rest/order_by.go:19 | cutting at the first comma and the first closing parenthesis after it is what the similarity expression matches, groups included |
| OrderBy.ReadTerm | pkg/rest/order_by.go:26-72 | one term, plain or similarity |
| OrderBy.ParseOrder | pkg/rest/order_by.go:15-76 | all terms in order, blank parts skipped |
| OrderBy.ReadUndoesPrint | pkg/rest/order_by.go:26-72 | every printed term reads back, plain as column, nulls position, direction, or as a similarity term with its search text |
| OrderBy.ParsedIsReadable | pkg/rest/order_by.go:15-76 | every order string, whatever the text, gives readable terms: no comma in a column but inside parentheses of a plain term, and only the last column may leave one open |
| OrderBy.ParseUndoesPrint | pkg/rest/order_by.go:15-76 | parsing a printed list of terms gives the list if and only if it is readable |
| OrderBy.ParsePrintParse | pkg/rest/order_by.go:15-76 | for every order string, similarity terms included, parse, print, parse gives the first order again |
| OrderBy.DirectionMustBeLast | pkg/rest/order_by.go:45-65 | with the direction before the nulls position, the direction becomes part of the column name |
| OrderBy.TermDefaults | pkg/rest/order_by.go:31-65 | a column with an optional nulls position and direction: ascending and nulls last unless .desc and .nullsfirst are written |
| OrderBy.SimilarityDefaults | pkg/rest/order_by.go:34-46 | similarity(column, text), quoted or not: descending unless .asc is written |
| OrderBy.ListOfTerms | pkg/rest/order_by.go:15-30 | a list is read part by part; space around parts and blank parts mean nothing |
| OrderBy.NullsAfterSimilarity | pkg/rest/order_by.go:32-65 | a nulls position after a similarity term is ignored, and the direction before it falls back to desc |
| Cdc.Processor.Process | pkg/pglogrepl/process_v2.go:12-48 | events, relation cache and streaming flag after each kind of message |
| Cdc.Processor.HandleInsert | pkg/pglogrepl/process_v2.go:50-77 | the event of an insert under the cached relation; the empty event for an unknown one |
| Cdc.Processor.HandleUpdate | pkg/pglogrepl/process_v2.go:79-117 | the same for updates, with or without an old tuple |
| Cdc.Processor.HandleDelete | pkg/pglogrepl/process_v2.go:119-146 | the same for deletes |
| Cdc.DecodeTupleAt | pkg/pglogrepl/process_v2.go:64-70 | a decoded row has each column's own value and no other columns |
| Cdc.ColumnRoundTrip | pkg/pglogrepl/util.go:15-32 | a column decodes to the value sent, or to nil when left out as unchanged |
| Cdc.DecodesToReceived | pkg/pglogrepl/process_v2.go:50-117 | a row decodes to itself with null for the columns left out |
| Cdc.DecodeUndoesEncode | pkg/pglogrepl/process_v2.go:50-117 | a row decodes to itself if and only if the columns left out as unchanged are null |
| Cdc.MessageDecoded | pkg/pglogrepl/process_v2.go:12-146 | the event of each message, column by column: an insert has the row after, a delete the old row before, an update both |
| Replica.QueryBuilder.BindAll | pkg/pgx/crud.go:32-41 | in any iteration order, each key is paired with the placeholder of its own value |
| Replica.InsertRow | pkg/pgx/crud.go:48-75 | the row is inserted with exactly its values, or nothing changes; no columns is an error |
| Replica.UpdateRow | pkg/pgx/crud.go:78-125 | SET and WHERE take their values through one numbering; nothing to set, an empty WHERE and zero rows are errors |
| Replica.PeerPG.Pub | pkg/pipeline/peer/pg/peer.go:92-135 | the sink's state and error after one event, case by case |
| Replica.KeyMatchesOneRow | pkg/pipeline/peer/pg/peer.go:120-127 | the primary key taken from any before image that has it selects the old row alone |
| Replica.UpdateReplaces | pkg/pgx/crud.go:78-125 | setting all columns where the key matches replaces that row |
| Replica.MirrorStep | pkg/pipeline/peer/pg/peer.go:111-128 | one change at the source, decoded and published, is the same change at the sink if and only if it is carried: an update with an old tuple and its key leaves out only null columns, any other update changes nothing |
| Replica.MirrorExactly | pkg/pipeline/peer/pg/peer.go:92-128 | over every run of announcements, inserts and updates, with key changes and unchanged columns left out, the sink equals the source after every change if and only if all changes are carried |
| Replica.Mirror | pkg/pipeline/peer/pg/peer.go:92-128 | over every such run of changes that are carried, the sink ends equal to the source |
| Replica.UpdateNeedsOldTuple | pkg/pipeline/peer/pg/peer.go:114-127 | an update without an old tuple changes nothing at the sink, whatever its row |
| Replica.DeletesAreNotReplicated | pkg/pipeline/peer/pg/peer.go:92-95 | a delete is refused before its operation is looked at |
| Replica.RefusedChangesNothing | pkg/pipeline/peer/pg/peer.go:92-135 | an event that is refused changes nothing at the sink |
| Replica.AcceptedDoes | pkg/pipeline/peer/pg/peer.go:92-135 | what an accepted insert, update, delete or truncate does to the tables, and in which schema |
| WalLoop.Streamer.TakeTurn | pkg/pglogrepl/stream.go:84-130 | one turn of the loop, with every receive outcome |
| WalLoop.Streamer.Stream | pkg/pglogrepl/stream.go:75-131 | the loop over any sequence of inputs |
| WalLoop.KnownIsLatest | pkg/pglogrepl/process_v2.go:12-48 | what is known of a relation is its latest description in the history |
| WalLoop.OpenIsLatest | pkg/pglogrepl/process_v2.go:40-44 | a streamed transaction is open if and only if a start has come and no stop after it |
| WalLoop.GreatestIsGreatest | pkg/pglogrepl/stream.go:108-125 | the position is one of those received and none exceeds it |
| WalLoop.TranscriptSends | pkg/pglogrepl/stream.go:84-130 | the events in the transcript of the turns are all decoded events, once each and in order |
| WalLoop.TranscriptRises | pkg/pglogrepl/stream.go:84-125 | reported positions never decrease and none exceeds the greatest received |
| WalLoop.LoopFollowsHistory | pkg/pglogrepl/stream.go:75-131 | the loop runs if and only if no turn so far had a due status fail, a receive error or WAL data that does not parse; position and cache are those of the history; the output is its transcript: in each turn that a status is due, one with the greatest position received before the turn, then the turn's events; a loop that ended sent that of the turns before the first that ends it, and that turn's status |
| TransformMeaning.ExtractLeaves | pkg/pipeline/transform/extract.go:28-58 | each image keeps exactly its listed fields with their values |
| Transform.ApplyExtract | pkg/pipeline/transform/extract.go:28-58 | the event keeps the listed fields of its images, in place |
| TransformMeaning.EntryMeaning | pkg/pipeline/transform/filter.go:126-181 | what an entry names: table, schema.table, and patterns for either |
| TransformMeaning.EntryForms | pkg/pipeline/transform/filter.go:126-181 | the forms t, s.t, s.*, *.t and *.* |
| TransformMeaning.PatternNeedsSchema | pkg/pipeline/transform/filter.go:140-174 | a pattern without a schema names no table |
| TransformMeaning.FilterDecides | pkg/pipeline/transform/filter.go:19-118 | a valid filter keeps an event unchanged if and only if its operation's letter is listed or none is, no exclude entry names its table, an include entry does or there is none, and the pattern matches; when it fails |
| Transform.ApplyFilter | pkg/pipeline/transform/filter.go:41-118 | the loops and flags decide as the configuration says |
| Transform.ReplaceMapKeys | pkg/pipeline/transform/replace.go:116-134 | the new map is a renaming of the old one in any iteration order |
| Transform.RenamingsAreOrders | pkg/pipeline/transform/replace.go:121-130 | a row is a renaming if and only if visiting the columns in some order makes it |
| TransformMeaning.ReplaceRenames | pkg/pipeline/transform/replace.go:65-87 | schema and table get their new names, each from its own map |
| TransformMeaning.ExpressionsInOrder | pkg/pipeline/transform/replace.go:84-93 | each expression works on the name the maps and earlier expressions give, of its own kind |
| TransformMeaning.ColumnsRenamed | pkg/pipeline/transform/replace.go:95-99 | each column of either image is under its new name, and no others |
| TransformMeaning.FieldRenamed | pkg/pipeline/transform/replace.go:101-107 | a schema field is renamed with its column, its display name too if it has one |
| Transform.RenamingIsUnique | pkg/pipeline/transform/replace.go:116-134 | without a collision the iteration order does not matter |
| Transform.RenameInPlace | pkg/pipeline/transform/replace.go:101-107 | the shared array of schema fields is rewritten |
| Transform.ApplyReplace | pkg/pipeline/transform/replace.go:65-113 | a copy of the event with new names over the same array of schema fields |
| Transform.RunChain | pkg/pipeline/transform/transform.go:94-127 | one step after the other up to the first that drops or fails, with the fields left by the steps that ran, for every order of renaming |
| Transform.ApplyTransformations | pkg/pipeline/process.go:37-60 | nothing runs when one configuration does not decode |
| Transform.FateIsFixed | pkg/pipeline/transform/transform.go:94-127 | whether an event is kept, dropped or fails, and after how many steps, does not depend on the order of renaming |
| Transform.DeliveryIsUnique | pkg/pipeline/process.go:37-60 | without colliding renames there is one result |
| Transform.StagesAreOneChain | pkg/pipeline/process.go:133-169 | source, pipeline and sink stages can deliver exactly what one chain of the concatenated lists can, colliding renames included |
| Transform.ExtractCommutesWithRename | pkg/pipeline/transform/extract.go:28-57 | extract then rename delivers what rename then extract of the renamed fields delivers, when the renaming is injective there |
| Transform.StepKeepsFields | pkg/pipeline/transform/replace.go:101-107 | a step keeps the shared schema fields if and only if it is no valid replace with an entry for one of them, other than from the field to itself with no different display name |
| Transform.ChainKeepsFields | pkg/pipeline/transform/transform.go:94-127 | the first n steps of a chain keep them after every step if and only if each of the n does |
| Transform.EventKeepsFields | pkg/pipeline/transform/transform.go:94-127 | an event leaves them as they were at every step if and only if each of the steps it reaches does |
| Transform.FieldsLeak | pkg/pipeline/transform/replace.go:101-107 | an input behind the negative half of the three laws above: one rename of one field |
| Fanout.FindsFirst | pkg/pipeline/pipeline.go:44-51 | the first pipeline of that name; none is found only if there is none |
| Fanout.FindsFirstSource | cmd/pigo/pipeline.go:244-255 | the entry used for a source is the first of its name; none is found only if there is none |
| Fanout.Channel.TrySend | pkg/pipeline/process.go:23-32 | queued when there is room, dropped otherwise |
| Fanout.DistributeToSinks | pkg/pipeline/process.go:15-35 | each channel is offered the event once for each of the pipeline's sinks of its name, no other changes |
| Fanout.PassingIsFixed | pkg/pipeline/process.go:109-130 | whether an event passes a pipeline does not depend on the order of renaming |
| Fanout.ProcessEvent | pkg/pipeline/process.go:109-130 | what the source and pipeline transformations may pass on reaches the pipeline's channels; the caller's event keeps its payload |
| Fanout.Serve | cmd/pigo/pipeline.go:236-260 | one subscription touches only its own pipeline's channels, and none when no pipeline of the name lists the source |
| Fanout.FanOut | cmd/pigo/pipeline.go:232-260 | all subscriptions served in order from the same event |
| Fanout.StepsAreFanOut | cmd/pigo/pipeline.go:228-260 | the steps a goroutine takes for an event leave in every queue what the loop over the subscriptions leaves there, for the outcomes of the steps |
| Fanout.FanOutIsSteps | cmd/pigo/pipeline.go:228-260 | for all outcomes the loop may have, the goroutine can take steps with these outcomes to the end of the event |
| Fanout.Manager.AddSubscription | pkg/pipeline/manager.go:95-102 | subscriptions of a source keep their order |
| Fanout.Manager.SetupSource | cmd/pigo/pipeline.go:112-147 | the first subscription starts the source's goroutine if it connects, later ones never do: at most one runs for each source |
| Fanout.QueuedIsSubsequence | pkg/pipeline/process.go:21-33 | what is queued is an ordered subsequence of what is offered |
| Fanout.StepInv | cmd/pigo/pipeline.go:216-266 | every step of sources and consumers keeps the invariant, whatever the history |
| Fanout.NeverBlocked | pkg/pipeline/process.go:21-33 | a source with an event in hand can always take a step of its own towards the end of it, however full the queues are |
| Fanout.Conservation | cmd/pigo/pipeline.go:216-289 | in every reachable state a pipeline was given exactly the received events, in order, once for each subscription and as far as the source has got; what it passed on is offered or in flight at each sink, offered = queued + dropped, queued = waiting + taken, taken = published + errors + filtered + failed + in hand, and no queue exceeds 100 |
| Fanout.CountersCount | pkg/pipeline/process.go:75-104 | in every reachable state the counters of a queue are the numbers of its events published, not published, dropped and failed |
| Fanout.CompletedByItsSink | pkg/pipeline/process.go:79-94 | a taken event goes through the transformations of its own sink |
| Fanout.NonInterference | cmd/pigo/pipeline.go:232-260 | two systems whose sources received the same for one pipeline, and took turns at one of its queues in the same order, offered, queued and dropped the same events there, whatever else they run; the same payloads too when no renames collide |
| Jq.SplitPath | pkg/util/jq.go:26-39 | the loop cuts the path into its non-empty segments |
| Jq.DotsOnlySeparate | pkg/util/jq.go:21-39 | leading, trailing and repeated dots change nothing |
| Jq.KeysOfJoin | pkg/util/jq.go:101-102 | splitting the joined remaining keys gives them back |
| Jq.RestIsShorter | pkg/util/jq.go:71-77 | the path of a wildcard's recursive call is shorter |
| Jq.Query | pkg/util/jq.go:16-88 | loop and recursion equal a recursive evaluator over the key list, with every error |
| Jq.HandleWildcard | pkg/util/jq.go:101-123 | results are flattened one level, misses dropped, and no result is an error |
| Jq.PathsCompose | pkg/util/jq.go:41-88 | following p.q is following p and then q, when p has no wildcard |
| Jq.GatherConcat | pkg/util/jq.go:101-117 | a wildcard treats the elements of a list one by one, in order |
| Jq.MemberSelected | pkg/util/jq.go:45-58 | a key without a bracket selects the member of that name |
| Jq.ElementSelected | pkg/util/jq.go:61-86 | name[n] selects element n of the list, counted from zero, or is an error |
| Jq.BadIndexRefused | pkg/util/jq.go:80-84 | indices that are no numbers or negative are errors |
| Jq.WildcardSelected | pkg/util/jq.go:72-77 | name[*] and name[] select the list itself at the end and otherwise gather from its objects |
| Jq.ElementGathered | pkg/util/jq.go:105-117 | what one element adds to a gathering |
| Jq.MalformedRefused | pkg/util/jq.go:91-98 | brackets that are not closed, or closed first, are malformed |
| Mqtt.DecodeTopic | pkg/pipeline/peer/mqtt/peer.go:103-199 | route of a topic, rewritten first when too short |
| Mqtt.ReadPairs | pkg/pipeline/peer/mqtt/peer.go:183-199 | the index loop pairs keys with values; a later value wins |
| Mqtt.TopicRoundTrip | pkg/pipeline/peer/mqtt/peer.go:141-199 | decoding recovers everything encoded, for any number of pairs, if and only if no segment is mistaken for the batch flag |
| Mqtt.ReadPayloads | pkg/pipeline/peer/mqtt/peer.go:201-268 | scalar, batch, single and missing bodies with the topic's pairs under them |
| Mqtt.CreateEvent | pkg/pipeline/peer/mqtt/peer.go:333-355 | extracted fields are added under the payload or stand in for none |
| Mqtt.Receive | pkg/pipeline/peer/mqtt/peer.go:103-287 | the events of a message, in order |
| Mqtt.BodyOverPairsOverFields | pkg/pipeline/peer/mqtt/peer.go:243-256 | field by field, the body wins over the topic's pairs, which win over extracted fields |
| Mqtt.MessageRead | pkg/pipeline/peer/mqtt/peer.go:125-287 | the events of a message on any encoded topic: scalar, missing, malformed, single and batch bodies, with the image before for deletes and after otherwise |
| Mqtt.UnknownOperation | pkg/pipeline/peer/mqtt/peer.go:144-158 | an operation that is none of the eight words gives nothing |
| Mqtt.ShortTopicRewritten | pkg/pipeline/peer/mqtt/peer.go:108-139 | a short topic is read as what it is rewritten to |
| Mqtt.ShortTopicDropped | pkg/pipeline/peer/mqtt/peer.go:108-139 | a short topic that is not rewritten gives nothing |
| Mqtt.ExtractFields | pkg/pipeline/peer/mqtt/transform.go:18-57 | fixed, indexed and matched fields; a later one wins |
| Mqtt.FieldExtracted | pkg/pipeline/peer/mqtt/transform.go:18-57 | one field: a fixed value, or a segment, or a match, whichever is configured first |
| Mqtt.FieldsExtracted | pkg/pipeline/peer/mqtt/transform.go:18-57 | fields are extracted one by one, a later one over an earlier one of its name |
| Mqtt.NegativeIndex | pkg/pipeline/peer/mqtt/transform.go:28-37 | index -k is the k-th segment from the end |
| Mqtt.MatchIsStandard | pkg/pipeline/peer/mqtt/transform.go:127-142 | matching is the relation of section 4.7.1 of MQTT 3.1.1 |
| Mqtt.TopicMatchIsStandard | pkg/pipeline/peer/mqtt/transform.go:123-125 | the same for a filter and a topic as strings |
| Mqtt.WideningKeepsMatches | pkg/pipeline/peer/mqtt/transform.go:127-142 | replacing a level by + or everything from a level on by # loses no match |
| Cache.Cache.Set | pkg/httputil/middleware/cache.go:28-35 | overwrites the item with its expiration |
| Cache.Cache.Get | pkg/httputil/middleware/cache.go:38-50 | returns an unexpired value and deletes an expired one |
| Cache.Cache.CleanupExpired | pkg/httputil/middleware/cache.go:53-61 | in any order, drops exactly the items expired at their clock reading |
| Cache.GetIsLastUnexpired | pkg/httputil/middleware/cache.go:28-61 | after every run Get returns the last value set unless it has expired; deletion and cleanup are never observed |
| Pool.PoolManager.Add | pkg/pgx/pool.go:40-63 | a live pool is added and may become active; a pool that does not answer is closed; the invariant is kept |
| Pool.PoolManager.Active | pkg/pgx/pool.go:78-86 | the active pool is held and open |
| Pool.PoolManager.SetActive | pkg/pgx/pool.go:89-98 | only a held pool becomes active |
| Pool.PoolManager.Remove | pkg/pgx/pool.go:101-121 | the pool is closed once and another becomes active if there is one |
| Pool.PoolManager.Close | pkg/pgx/pool.go:124-133 | every pool ever created is closed exactly once |

## Left out

- Replica.Mirror: inserts and updates only, where `MirrorExactly` says which updates; columns other than keys may be null; the server's rows are sets of columns compared by equality, and an update changing several rows at once is not part of the change stream.
- Replica.PeerPG.Pub: a before image that is not an object makes the code panic; here it is an error.
- Fanout.Conservation: pipelines and the sinks of a pipeline have distinct names; steps are atomic and interleaved, and the setup path that closes sink channels on an error is not modelled.
- Mqtt.MatchIsStandard: topics starting with $ are treated like any other, as the code does.
- Pool.PoolManager.Add: adding after Close would write to a nil map and panic, so it is excluded.
- SQL text: the clause is a list of tokens; quoting of identifiers and the spacing of the text are not modelled.
- Meaning of single SQL operators, casts and functions: parameters of the theorems.
- Text of error messages: only the kind of an error, and where the parser found it, is modelled.
- Unicode tables and UTF-8: strings are sequences of characters, and the letters outside ASCII are an arbitrary set.
- Configured regular expressions and globs (the one of order terms is modelled), JSON encoding and decoding, and scalar guessing (pkg/pipeline/peer/mqtt/transform.go:59-89): parameters.
- Truncate events, because the relation is picked arbitrarily (pkg/pglogrepl/process_v2.go:148-173), and publication setup (pkg/pglogrepl/stream.go:133-256).
- Sorting of query keys and of data keys: the sorted key list is an input of the builders.
- Network, database, broker and clock calls: their outcomes are inputs of the steps.
- Data races, such as Cache.Get deleting under a read lock: the classes run sequentially.
- Roles, authentication, OpenAPI, RAG, AGE, proxies, remote procedure calls and command-line code: plumbing that would add only easy members.
