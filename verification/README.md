# Doris query builder — a Dafny model

The PHP class `Brivencn\Doris\Doris` is a fluent SQL query builder. An
instance holds four pieces of state: a table name, a field list (default
`*`), a condition (default `1=1`) and a partition name. Chainable modifiers
(`table`, `field`, `where`, `whereOr`, `partition`) overwrite that state.
Five terminal actions (`select`, `paginate`, `add`, `save`, `delete`) turn
the current state and their arguments into SQL text and hand it to PDO.

This project models the builder state as an immutable datatype and each
modifier as a function from state to state. Each terminal action is a
function from state and arguments to the SQL string. It also proves what
those strings look like and how state carries across a chain of calls.

Modules:

- `Wrappers` — `Option`, standing for PHP `null` and for an absent request parameter.
- `Implode` — PHP `implode` as `Join`, with `Split` as its inverse for a
  one-character separator.
- `Decimal` — the text PHP produces when an integer is concatenated into a
  string (`IntToString`). `ParseInt` reads it back.
- `QueryBuilder` — the `Builder` state, its defaults, the setters, and the
  rendering of condition triples by `where`/`whereOr`.
- `Statements` — the SQL text of the five terminal actions, with the page
  arithmetic of `paginate`. It also holds loop versions of the source's
  `foreach` loops, proved equal to the functional definitions.
- `Session` — a chain of calls on one builder instance (`Step`, `Run`). It
  shows that terminal actions leave the state untouched, so the state
  carries over to every later call.

Behaviour follows the code as written:

- Values are quoted but never escaped. `where` uses double quotes; `add` and
  `save` use single quotes.
- `save` and `delete` put two spaces before `WHERE`.
- `delete` always emits `PARTITION (...)`. When no partition was set, it
  renders `PARTITION ()`, because `null` concatenates as the empty string.
  An unset table also renders as the empty string.
- `where` with an empty list sets the condition to the empty string.
  `whereOr` with an empty list appends ` OR ()`.
- `add` reads its column list from `$data[0]`, which is assigned only when
  the first row has at least one entry. The model follows PHP 7, where the
  missing entry reads as `null` and `implode` of `null` gives `null`:
  - zero rows render `INSERT INTO t () VALUES ` (nothing after VALUES);
  - an empty first row renders `()` as its column list and `('')` as its tuple;
  - any other empty row renders `('')`.

## Model

| member | source | states |
|---|---|---|
| QueryBuilder.New | src/Doris.php:16-19 | a fresh builder has no table, field list `*`, condition `1=1` and no partition |
| QueryBuilder.Table | src/Doris.php:56-60 | `table` sets the table slot and leaves field, condition and partition unchanged |
| QueryBuilder.Field | src/Doris.php:67-71 | `field` sets the field list and leaves every other slot unchanged |
| QueryBuilder.Partition | src/Doris.php:106-110 | `partition` sets the partition slot and leaves every other slot unchanged |
| QueryBuilder.SettersOverwrite | src/Doris.php:56-110 | for `table`, `field` and `partition` (:56-71, :106-110), a second call to the same setter erases every trace of the first |
| QueryBuilder.SettersCommute | src/Doris.php:56-110 | any two of `table`, `field` and `partition` (:56-71, :106-110) can be applied in either order |
| QueryBuilder.RenderCondition | src/Doris.php:81 | defines one triple as `column + " " + op + " \"" + value + "\""`; its contract states the text opens with `column op ` and closes with the double-quoted value |
| QueryBuilder.AndJoin | src/Doris.php:80-83 | defines the condition text as the rendered triples joined by ` AND ` in input order; its contract states an empty list gives `""` and one triple gives that triple's text |
| QueryBuilder.Where | src/Doris.php:78-85 | `where` sets the condition to the AND-join of the rendered triples; other slots are unchanged |
| QueryBuilder.WhereForgetsPrior | src/Doris.php:83 | the condition `where` produces is independent of the prior condition; an empty list gives the empty string |
| QueryBuilder.WhereOr | src/Doris.php:92-99 | `whereOr` appends ` OR (` + AND-join + `)` to the existing condition; other slots are unchanged |
| QueryBuilder.WhereOrExtends | src/Doris.php:97 | the prior condition is a strict prefix of the condition after `whereOr` |
| QueryBuilder.WhereThenWhereOr | src/Doris.php:78-99 | `where(A)` then `whereOr(B)` gives `A-join OR (B-join)`, whatever the builder held before |
| QueryBuilder.AndJoinConcat | src/Doris.php:80-83 | for non-empty halves, a condition list split in two renders as the two halves joined by ` AND `, so triple order is kept |
| QueryBuilder.RenderConditionRoundTrip | src/Doris.php:81 | a rendered triple `col op "val"` parses back to the triple when column and operator have no spaces |
| QueryBuilder.RenderConditionAmbiguous | src/Doris.php:81 | without escaping, two different triples can render to the same text |
| QueryBuilder.WhereByLoop | src/Doris.php:80-83 | the source's rewrite-each-entry loop followed by implode computes exactly the AND-join |
| Implode.Join | src/Doris.php:83 | defines `implode(sep, parts)`: the pieces in order with `sep` between neighbours; its contract states the empty list gives `""` and otherwise the length is the pieces' total plus one separator per gap |
| Implode.JoinConcat | src/Doris.php:178 | for two non-empty lists, imploding their concatenation is imploding each part with one separator between them |
| Implode.SplitJoin | src/Doris.php:179 | for a non-empty list, splitting an implode on its one-character separator recovers the pieces when none contains it |
| Implode.JoinSplit | src/Doris.php:179 | imploding the pieces of a split restores the string |
| Decimal.NatToString | src/Doris.php:148 | the decimal text of a natural number is a non-empty digit string with no leading zero, starting with `0` only for 0 |
| Decimal.IntToString | src/Doris.php:148 | an integer's text is canonical, with a leading `-` exactly for negatives |
| Decimal.IntRoundTrip | src/Doris.php:148 | parsing an integer's text gives back the integer |
| Decimal.ParseRoundTrip | src/Doris.php:148 | every canonical integer text is the text of the integer it denotes |
| Decimal.IntToStringInjective | src/Doris.php:148 | distinct integers render as distinct texts |
| Statements.TableName | src/Doris.php:122 | a set table renders as its name; an unset (null) table renders as the empty string |
| Statements.Select | src/Doris.php:122 | defines `"SELECT " + field + " FROM " + table + " WHERE " + condition`; its contract states the text is exactly the 20 keyword characters plus field, table and condition |
| Statements.SelectAfterChain | src/Doris.php:122 | `table(t)->field(f)->where(L)->select()` renders `SELECT f FROM t WHERE <AND-join of L>`; `table(t)->select()` renders `SELECT * FROM t WHERE 1=1` |
| Statements.SelectEndsWithCondition | src/Doris.php:122 | the select text ends with ` WHERE ` followed by the current condition |
| Statements.SelectIgnoresPartition | src/Doris.php:122 | the select text does not depend on the partition slot |
| Statements.CurrentPage | src/Doris.php:145 | the page is at least 1: a supplied page of 1 or more is used as is; a missing page or one below 1 becomes 1 |
| Statements.Offset | src/Doris.php:146 | the offset is non-negative for a page of at least 1 and a non-negative page size; page 1 has offset 0 |
| Statements.OffsetNextPage | src/Doris.php:146 | each page starts `listRows` rows after the previous one |
| Statements.OffsetInjective | src/Doris.php:146 | with a positive page size, distinct pages have distinct offsets |
| Statements.Paginate | src/Doris.php:145-148 | defines the select text + ` LIMIT ` + listRows + ` OFFSET ` + `(page-1)*listRows`, with page = `max(1, p)` or 1; its contract states the length is the select's plus the 15 keyword characters plus the two numbers' texts |
| Statements.PaginateFirstPage | src/Doris.php:145-148 | any page at or below 1 renders like a missing page, and that is the select followed by ` LIMIT n OFFSET 0` |
| Statements.PaginateThirdPage | src/Doris.php:145-148 | page 3 renders ` OFFSET ` followed by the text of `2*listRows` |
| Statements.PaginateDefault | src/Doris.php:142-148 | with the default page size and no page, the select is followed by ` LIMIT 10 OFFSET 0` |
| Statements.PaginateExtendsSelect | src/Doris.php:148 | the paginated text starts with the select text; the LIMIT number reads back as the page size; the text ends with the offset `(page-1)*listRows` |
| Statements.PaginateDistinctPages | src/Doris.php:145-148 | with a positive page size, distinct requested pages of at least 1 give distinct statements (pages below 1 are clamped to page 1 and so collide with it) |
| Statements.Tuple | src/Doris.php:176 | one row's VALUES tuple opens with `('`, closes with `')`, and in between holds exactly the row's values joined by `','` (its length is that join's plus 4) |
| Statements.ColumnList | src/Doris.php:173-179 | the insert's column list is the first row's keys joined by `,`; with no rows it is the empty string |
| Statements.Add | src/Doris.php:169-179 | defines `"INSERT INTO " + table + " (" + column list + ") VALUES " + tuples joined by ","`; its contract states the text is exactly the 23 keyword characters plus table, column list and VALUES list |
| Statements.AddNoRows | src/Doris.php:171-179 | zero rows render `INSERT INTO t () VALUES ` |
| Statements.TuplesReadValuesOnly | src/Doris.php:172-176 | the VALUES tuples depend only on each row's values, never on its keys |
| Statements.AddColumnsFromFirstRow | src/Doris.php:171-179 | the insert's column list comes from the first row alone; later rows' keys do not change the statement |
| Statements.AddAppendsTuple | src/Doris.php:176-178 | for a non-empty list of rows, one more row appends exactly one `,('...')` tuple after the others, so there is one tuple per row in row order |
| Statements.AddSingleRow | src/Doris.php:171-179 | a one-row insert is `INSERT INTO t (k1,k2,...) VALUES ('v1','v2',...)` |
| Statements.AddColumnsRecoverable | src/Doris.php:179 | for a non-empty first row whose keys hold no comma, splitting the column list on `,` gives exactly that row's keys, in order |
| Statements.AddReadsTableOnly | src/Doris.php:179 | the insert text depends on neither the condition, the field list nor the partition |
| Statements.AddByLoop | src/Doris.php:169-179 | the source's nested loops compute exactly the functional insert text |
| Statements.Assignment | src/Doris.php:202 | one SET entry opens with the key followed by ` = '` and closes with the value followed by `'` |
| Statements.Save | src/Doris.php:199-205 | defines `"UPDATE " + table + " SET " + assignments joined by "," + "  WHERE " + condition`; its contract states the text is exactly the 20 keyword characters plus table, SET list and condition |
| Statements.SaveUsesCurrentCondition | src/Doris.php:201-205 | an update with no prior `where` ends in `  WHERE 1=1`; after `where(L)` it ends in `  WHERE ` followed by the AND-join of L |
| Statements.SaveAppendsAssignment | src/Doris.php:201-205 | for a non-empty update list, one more pair appends exactly one `,k = 'v'` to the SET list, after the others |
| Statements.SaveByLoop | src/Doris.php:199-205 | the source's loop and implode compute exactly the functional update text |
| Statements.Delete | src/Doris.php:226 | defines `"DELETE FROM " + table + " PARTITION (" + partition + ")  WHERE " + condition`; its contract states the text is exactly the 33 keyword characters plus table, partition and condition |
| Statements.DeletePartitionRecoverable | src/Doris.php:226 | when the partition name holds no `)`, the text after `DELETE FROM t PARTITION (` up to the first `)` is the partition (empty when unset), and the rest is `  WHERE ` and the condition |
| Statements.DeletePartitionClause | src/Doris.php:226 | an unset partition renders `PARTITION ()`; a set one renders its name between the parentheses |
| Statements.DeleteIgnoresField | src/Doris.php:226 | the delete text does not depend on the field list |
| Session.Step | src/Doris.php:56-234 | a terminal call issues one statement and leaves the builder unchanged; a modifier issues none and leaves the builder its setter (`table`, `field`, `where`, `whereOr`, `partition`) produces; only `where`/`whereOr` touch the condition |
| Session.Run | src/Doris.php:119-234 | a chain issues exactly one statement per terminal call |
| Session.Modifiers | src/Doris.php:56-110 | a call is in the result exactly when it is a non-terminal call of the chain, and the result has one entry per non-terminal call |
| Session.ModifiersAppend | src/Doris.php:56-110 | the modifiers of a concatenated chain are those of the first part followed by those of the second, so order is kept |
| Session.RunIgnoresTerminals | src/Doris.php:119-234 | removing every terminal call from a chain leaves the final builder the same, so rendering never modifies state |
| Session.RunAppendState | src/Doris.php:59 | running two chains in turn on one instance ends in the same builder as running their concatenation |
| Session.RunAppendIssued | src/Doris.php:59 | running two chains in turn issues the first chain's statements followed by the second's, as running their concatenation does |
| Session.RunAppend | src/Doris.php:59 | running two chains in turn on one instance equals running their concatenation, in final builder and in statements issued |
| Session.TerminalSeesAccumulatedState | src/Doris.php:16-19 | a terminal call renders from the state all earlier modifiers left; earlier terminal calls reset nothing |
| Session.ConditionPersists | src/Doris.php:83 | with no `where`/`whereOr` in a chain, the condition stays what it was, e.g. `1=1` |
| Session.RepeatedTerminal | src/Doris.php:119-234 | the same terminal call issued twice in a row renders the same statement twice |

## Left out

- Connecting to the database is left out. This covers the constructor, `connect`, and the PDO error echo. It is external I/O.
- Preparing and executing statements is left out: `prepare`, `execute`, `fetchAll` and `rowCount`. The rows returned and the counts affected come from the database. The model stops at the SQL text.
- The `echo $e->getMessage(); exit();` error paths of every terminal action are left out. They are process control. A statement the engine rejects is the database's business, e.g. one with an empty table name.
- `startTrans`, `commit` and `rollback` are left out. They are one-line pass-throughs to PDO. So is the destructor.
- Reading `$_GET['page']` and its `(int)` cast are left out. The page is an explicit `Option<int>` argument to `Paginate`.
- PHP integer overflow is left out. `(page - 1) * listRows` is computed on unbounded integers. In PHP it turns into a float past 64 bits.
- Non-integer arguments are left out. PHP lets `listRows`, condition values and row values be any scalar. The model takes integers for `listRows` and strings everywhere else. Converting other scalars to text is the caller's job.
- Statements.Add: the first row is index 0 of a list. A PHP array whose first key is not `0` is outside the model.
- Statements.Add: with zero rows or any empty row the model renders what PHP 7 renders. Under PHP 8, `implode` of `null` throws a `TypeError` instead. The model does not represent that throw.
- Rows and update lists are sequences of pairs. Keys are not forced to be distinct as in a PHP array. Rendering does not depend on it.
- Parameter binding, escaping, a conditional partition clause and typed errors are not modelled. They do not exist in the source.
