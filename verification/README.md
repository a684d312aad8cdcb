# SQL clause builder of fatal-encounters-server, modelled in Dafny

The server assembles its SQL from small clause values. Each clause renders a
fragment of SQL text with `?` markers and returns the ordered list of bind
parameters those markers stand for. The composite clauses are:

- a subexpression: the non-empty child texts joined by a connector; used
  bare as a clause (the incident detail route joins its SELECT and JOINs with
  one) or inside the two groups below;
- a WHERE clause and a parenthesised conditions group, built on a
  subexpression; each vanishes when every child vanished;
- the root query: its children joined by single spaces, after which the
  k-th `?` counted from the left becomes `$k`, one `$k` per parameter.

The project models the newer `query/` package with all of its leaves (SELECT,
JOIN, INSERT, GROUP BY, raw text, compare, equals, text search, page, NOT,
subquery). It also models the IN and ORDER BY clauses, whose only
implementation lives in `shared/`. Beside these it models the older `shared/`
revision of the root query, WHERE clause and text search, and relates the two
revisions.

Modules, one per file:

- `Strings`: marker counting, Go's `strings.Join` / `strings.Repeat`, and filtering out empty texts.
- `Enums`: the three closed enumerations and their text tables.
- `Leaves`: the text and parameters of every leaf.
- `Clauses`: the clause tree of the newer revision, with `Render` and `Params`.
- `Renumber`: the `?` to `$k` rewriting.
- `Queries`: the newer root query.
- `Numbered`: the numbered text of each clause.
- `Legacy`: the older revision.
- `Scenarios`: the repository's test cases, stated for any inputs free of `?`.

The central invariant is `Clauses.MarkerCount`: if no caller-supplied column,
table, row or raw text holds a `?`, a clause's text holds exactly one marker
per parameter. Building on it, the source's loop of
`strings.Replace(text, "?", "$k", 1)` calls is proved equal to a one-pass
left-to-right numbering (`Queries.QueryString`). That numbering leaves no `?`,
and puts `$1, $2, ...` in place of the markers in order (`Renumber.NumberAligned`).

Where the code and its own comments disagree, the model follows the code:

- The comparator table maps `LesserEqual` to `<=`. The comment on that constant
  (query/compareClause.go:25) says `>=`.
- The newer subexpression drops a nil child (query/subexpression.go:36-40).
  The older `shared/` WHERE clause (shared/whereClause.go:32-34) and root
  query (shared/query.go:61-63) append it as given, and their first `String`
  or `Parameters` call then fails. The model keeps that child as
  `Legacy.Nil` and returns `None`.

The `query/` files as they stand do not compile together: `Combinator` is
declared both in query/whereClause.go:8 and in query/conditionsClause.go:10,
and the `subexpression` methods have pointer receivers but are called through
a value. The model reads them as one connector table (`Enums.Combinator`)
shared by WHERE and conditions groups, and as subexpressions that are changed
through a reference. query/subexpression.go:10-13 declares only the unexported
`newSubexpression`, while routes/incidentroute/detail.go:48 and :55 call
`query.NewSubexpression`; the model reads that call as the declared
constructor (`Clauses.NewSub`).

## Model

| member | source | states |
|---|---|---|
| Enums.OperatorText | query/compareClause.go:29-35 | The comparator table has a one- or two-character operator per comparator, `LesserEqual` gives `<=`, no operator holds a marker, and `ParseOperator` reads each operator back, so the table is one-to-one |
| Enums.Keyword | shared/whereClause.go:48 | The older WHERE clause's keyword table gives `AND` / `OR`, read back one-to-one by `ParseKeyword` |
| Enums.Token | query/whereClause.go:22-28 | The connector of the newer WHERE and conditions clauses is the keyword with one space on each side, and holds no marker |
| Enums.DirectionText | shared/orderClause.go:30 | `ASC` / `DESC`: not empty, no marker, read back one-to-one by `ParseDirection` |
| Leaves.SelectText | query/selectClause.go:19-22 | A SELECT starts with `SELECT `, is never empty, ends with ` FROM table`, has the rows joined by `, ` between the two, and holds only the markers of its row and table names |
| Leaves.JoinText | query/joinClause.go:14-16 | A JOIN starts with `JOIN ` followed by the table name, is never empty, is as long as that prefix and the join condition together, and holds three times the markers of the table name (none for a clean name) |
| Leaves.JoinSuffix | query/joinClause.go:14-16 | A JOIN of table `t` ends with the join condition ` ON t_id=t.id` |
| Leaves.InsertText | query/insertClause.go:14-16 | `INSERT INTO ` followed by exactly the table name, with the table's markers only |
| Leaves.GroupText | query/groupClause.go:14-16 | `GROUP BY ` followed by exactly the column, with the column's markers only |
| Leaves.CompareText | query/compareClause.go:42-45 | A compare clause starts with the column, ends with ` ?`, is never empty, and holds exactly one marker besides the column's |
| Leaves.EqualsText | query/equalsClause.go:17-19 | An equals clause prints exactly what a compare clause with `Equal` prints, with one marker besides the column's |
| Leaves.SearchText | query/textSearchClause.go:20 | The ILIKE fragment starts with the column, is longer than it, and holds one marker besides the column's |
| Leaves.TextSearchParams | query/textSearchClause.go:24-29 | A text search binds nothing exactly when the term is empty, and otherwise binds just the term |
| Leaves.TextSearchText | query/textSearchClause.go:16-21 | The newer text search vanishes exactly when the term is empty, and holds one marker per parameter beyond the column's |
| Leaves.InMarkers | shared/inClause.go:22-23 | `?, ` repeated n times with the trailing `, ` cut off is the n markers joined by `, `, and holds exactly n markers |
| Leaves.InMarkersJoin | shared/inClause.go:22-23 | Cutting the last two characters off `?, ` repeated n times leaves `?, ..., ?` with n markers, proved by induction on n |
| Leaves.InText | shared/inClause.go:18-25 | An IN clause vanishes exactly when it has no values, and otherwise holds the column's markers plus one per value |
| Leaves.InParams | shared/inClause.go:27-33 | The parameters of an IN clause are its values, one per value, in their original order |
| Leaves.OrderText | shared/orderClause.go:28-32 | An ORDER BY starts with `ORDER BY `, is never empty, ends with a space and the direction, has the columns joined by `, ` between the two, and holds only the column names' markers |
| Leaves.PageParams | query/pageClause.go:27-40 | A page binds nothing exactly when the limit is not positive, otherwise the limit first, and the offset second exactly when both are positive |
| Leaves.PageText | query/pageClause.go:16-24 | A page vanishes exactly when the limit is not positive, otherwise starts with `LIMIT ?`, and in every branch has one marker per parameter |
| Leaves.NotText | query/notClause.go:14-20 | NOT vanishes exactly when its operand does, otherwise is `NOT ` followed by the operand, and holds the operand's markers |
| Leaves.ParenText | query/subquery.go:14-16 | A subquery is the operand between parentheses, two characters longer, even around an empty operand, with the operand's markers |
| Leaves.WhereText | query/whereClause.go:38-44 | A WHERE text vanishes exactly when its inner text does, otherwise is `WHERE ` followed by the inner text; never a bare `WHERE` |
| Leaves.GroupParenText | query/conditionsClause.go:31-37 | A conditions text vanishes exactly when its inner text does, is never `()`, and otherwise is the inner text in parentheses |
| Clauses.AddPart | query/subexpression.go:36-40 | Adding nil leaves the children unchanged; any other child is appended after untouched earlier children; for every connector the new text is the old text glued to the child's, and the parameters are the old ones followed by the child's |
| Clauses.SubTextSnoc | query/subexpression.go:15-24 | Appending a child glues its text on: no connector before the first survivor or after the last, never two in a row, and an empty child text changes nothing |
| Clauses.SubParamsSnoc | query/subexpression.go:26-34 | Appending a child appends its parameters, whether or not its text survives |
| Clauses.SubTextEmpty | query/subexpression.go:15-24 | A subexpression renders nothing exactly when every child renders nothing, so also with no children |
| Clauses.SubTextCount | query/subexpression.go:15-24 | With a marker-free connector, a subexpression's text holds exactly the markers of its children's texts |
| Clauses.NewWhere | query/whereClause.go:22-30 | A new WHERE clause has no children, renders nothing and binds nothing |
| Clauses.NewConditions | query/conditionsClause.go:25-29 | A new conditions group has no children, renders nothing and binds nothing |
| Clauses.AddClause | query/whereClause.go:33-35 | Adding to a WHERE or conditions group keeps its kind and combinator, drops a nil child, glues the child's text on with the group's token, and appends the child's parameters |
| Clauses.WhereRendering | query/whereClause.go:38-49 | A WHERE vanishes exactly when all of its children do; otherwise it is `WHERE ` followed by the children joined with the token; its parameters are its children's |
| Clauses.NewSub | query/subexpression.go:10-13 | A new bare subexpression keeps its connector, has no children, renders nothing and binds nothing |
| Clauses.AddSubClause | query/subexpression.go:36-40 | Adding to a bare subexpression keeps its connector, drops a nil child, otherwise appends the child after the earlier ones; the text is the old text glued to the child's with the connector, and the parameters are the old ones followed by the child's |
| Clauses.SubRendering | query/subexpression.go:15-34 | A bare subexpression vanishes exactly when all of its children do, prints the surviving children joined by its connector with nothing around them, and binds its children's parameters |
| Clauses.SubPairRendering | query/subexpression.go:15-34 | A bare subexpression of two children prints their texts glued by the connector, binds the first child's parameters then the second's, and is clean exactly when the connector and both children are |
| Clauses.WhereOne | query/whereClause.go:38-44 | A WHERE of one child is `WHERE ` around the child's text (nothing when that is empty), binds the child's parameters, and is clean exactly when the child is |
| Clauses.ConditionsRendering | query/conditionsClause.go:31-41 | A conditions group vanishes exactly when all of its children do, is never `()`, otherwise is the joined children in parentheses; its parameters are its children's |
| Clauses.NestedVanish | query/conditionsClause.go:31-35 | A WHERE whose only child is a conditions group of vanishing children renders nothing and binds nothing |
| Clauses.VanishedHasNoParams | query/subexpression.go:15-34 | Any clause that renders nothing binds nothing, so a vanished child never leaks parameters into its parent |
| Clauses.MarkerCount | query/subexpression.go:15-34 | In a tree without `?` in caller-supplied text, every clause's text holds exactly one marker per parameter |
| Clauses.RawRendering | query/rawSql.go:12-18 | Raw text is printed as it is and binds nothing, so it vanishes exactly when it is empty |
| Clauses.EqualsIsCompare | query/equalsClause.go:17-23 | An equals clause prints and binds exactly what a compare clause with `Equal` does: one parameter, its value |
| Clauses.FixedLeaves | query/selectClause.go:19-27 | SELECT, and likewise JOIN, INSERT, GROUP BY and ORDER BY, bind nothing and never vanish, so a parent always keeps them |
| Clauses.WrapperRendering | query/notClause.go:14-24 | NOT vanishes exactly with its operand and otherwise prefixes `NOT `; a subquery never vanishes, even around an empty operand; both pass the operand's parameters through |
| Renumber.Dollar | query/query.go:32 | The placeholder for k is `$` followed by the decimal digits of k, and holds no marker |
| Renumber.ReplaceFirstShape | query/query.go:33 | One `strings.Replace(s, "?", r, 1)` keeps a text without markers, and otherwise puts `r` in place of the first marker only, keeping the text before and after |
| Renumber.NumberStep | query/query.go:31-34 | After i replacement calls, one more call numbers exactly the next marker: the loop computes the one-pass left-to-right numbering |
| Renumber.NumberCount | query/query.go:31-34 | Numbering n markers leaves the other markers, or none once n reaches the number of markers |
| Renumber.NumberSaturates | query/query.go:31-34 | Asking for more numbers than there are markers changes nothing more |
| Renumber.NumberLeavesRest | query/query.go:31-34 | Any text after the n-th marker, markers included, is left as it was |
| Renumber.NumberShift | query/query.go:31-34 | Across a concatenation whose first half holds n markers, the first half takes `$k..$k+n-1` and the second continues from `$k+n` |
| Renumber.Segments | query/query.go:31-34 | A text splits into marker-free pieces, one more than its markers, that join back with `?` into the text |
| Renumber.NumberAligned | query/query.go:31-34 | Numbering every marker puts `$k, $k+1, ...` in place of the markers, in order, and keeps the text between them |
| Renumber.NumberJoin | query/query.go:31-34 | Marker-free pieces joined by markers are numbered into the pieces with `$k, $k+1, ...` between them |
| Queries.NewQuery | query/query.go:21-23 | A new query has no text and no parameters |
| Queries.AddClause | query/query.go:43-45 | Adding to the root drops nil, otherwise space-glues the clause's text after the text so far and appends its parameters |
| Queries.JoinedMarkerCount | query/query.go:29-40 | A clean query's space-joined text holds exactly one marker per parameter |
| Queries.QueryString | query/query.go:29-36 | The replacement loop gives the one-pass numbering; for a clean query no `?` is left, the k-th marker became `$k`, and the text between markers is kept |
| Queries.SqlShape | query/query.go:29-36 | A clean query's SQL has no marker and is the pieces with `$1, $2, ...` between them; a text without markers is printed as it is |
| Queries.AddClauseNumbering | query/query.go:29-45 | Appending a clause leaves the earlier SQL text as it was, and the new clause's markers continue the count after the earlier parameters |
| Queries.SqlPair | query/query.go:29-36 | A query of two non-vanishing clauses numbers the first from `$1` and the second from where the first stopped |
| Queries.AddVanished | query/query.go:29-45 | Adding a clause that renders nothing leaves the SQL text and the parameters as they were |
| Queries.SqlDropVanished | query/query.go:29-45 | A trailing clause that renders nothing does not change the SQL text |
| Numbered.NumberedCompare | query/compareClause.go:42-45 | A compare clause numbered from k prints `column op $k` |
| Numbered.NumberedSearch | query/textSearchClause.go:20 | A text search numbered from k prints `column ILIKE '%' \|\| $k \|\| '%'` |
| Numbered.NumberedMarkers | shared/inClause.go:22-23 | The marker list numbered from k prints `$k, $k+1, ..., $k+n-1` |
| Numbered.NumberedIn | shared/inClause.go:18-25 | An IN clause with values numbered from k prints `column IN ($k, ..., $k+n-1)` |
| Numbered.NumberedPage | query/pageClause.go:16-24 | A page numbered from k prints `LIMIT $k OFFSET $k+1`, `LIMIT $k`, or nothing, by the signs of limit and offset |
| Numbered.NumberedWhereOne | query/whereClause.go:38-44 | A WHERE of one surviving child prints `WHERE ` and the child's numbered text |
| Numbered.NumberedWhereTwo | query/whereClause.go:38-44 | A WHERE of two surviving children prints `WHERE `, the first numbered from k, the token, and the second numbered from where the first stopped |
| Legacy.WhereJoin | shared/whereClause.go:37-52 | The older WHERE text vanishes exactly when every child text is empty, otherwise is `WHERE ` and the non-empty texts joined with ` AND ` / ` OR `, with the children's markers |
| Legacy.Defined | shared/whereClause.go:32-63 | Rendering and parameter collection succeed exactly on trees without a nil child |
| Legacy.NewWhere | shared/whereClause.go:24-29 | A new older WHERE renders nothing and binds nothing |
| Legacy.AddClause | shared/whereClause.go:32-34 | The older WHERE appends whatever it is given; a nil child makes rendering and parameter collection fail |
| Legacy.Sql | shared/query.go:33-47 | The older query's SQL text exists exactly when no child is nil |
| Legacy.NewQuery | shared/query.go:21-25 | A new older query prints nothing and binds nothing |
| Legacy.AddQueryClause | shared/query.go:61-63 | The older root appends whatever it is given; its SQL exists exactly when it did before and the new child holds no nil |
| Legacy.MarkerCount | shared/whereClause.go:37-63 | The older revision keeps the invariant: a clean tree renders one marker per parameter |
| Legacy.SqlNumbersAll | shared/query.go:33-47 | A clean older query's SQL has no `?` left and is the pieces with `$1, $2, ...` between them |
| Legacy.WhereAgrees | shared/whereClause.go:45-51 | The inline filter-and-join of the older WHERE gives the same text as the newer WHERE over its subexpression |
| Legacy.SearchNeverVanishes | shared/textSearchClause.go:19-28 | The older text search always prints its ILIKE fragment and binds its term, even when the term is empty |
| Legacy.Agreement | shared/whereClause.go:37-63 | On trees without nil children and without empty search terms, both revisions render the same text and bind the same parameters |
| Legacy.QueryAgreement | shared/query.go:33-58 | On such trees the older root query prints the same SQL as the newer one built from the same clauses |
| Scenarios.SelectScenario | query/whereClause_test.go:9 | The tests' base query, `SELECT` of rows `a`, `b` from table `test`, is `SELECT a, b FROM test` and holds no marker |
| Scenarios.EmptyWhereScenario | query/whereClause_test.go:5-11 | An empty WHERE added after a SELECT leaves the bare SELECT |
| Scenarios.CompareScenario | query/compareClause_test.go:5-13 | A compare clause with `Equal` under a WHERE prints `SELECT ... WHERE column = $1` |
| Scenarios.EqualsScenario | query/equalsClause_test.go:5-13 | An equals clause under a WHERE prints `SELECT ... WHERE column = $1` |
| Scenarios.InScenario | query/inClause_test.go:5-13 | An IN clause under a WHERE prints `column IN ($1, ..., $n)` after the SELECT |
| Scenarios.InThreeScenario | query/inClause_test.go:5-13 | With three values that is `column IN ($1, $2, $3)` |
| Scenarios.IgnoreInScenario | query/inClause_test.go:15-23 | An IN clause without values under a WHERE leaves the bare SELECT |
| Scenarios.AbsentIgnoreList | shared/handlers.go:188-193 | A NOT around an IN clause without values, the handlers' absent ignore list, renders nothing and binds nothing |
| Scenarios.CombinedWhere | query/whereClause_test.go:13-25 | A WHERE of a text search and an IN clause of three values prints `WHERE column ILIKE '%' \|\| $1 \|\| '%' AND column IN ($2, $3, $4)` |
| Scenarios.CombinedWhereScenario | query/whereClause_test.go:13-25 | That WHERE after the SELECT gives the test's expected text |
| Scenarios.OrderScenario | query/orderClause_test.go:5-11 | An ORDER BY after the SELECT is appended with one space and binds nothing |
| Scenarios.OrderTextScenario | query/orderClause_test.go:5-11 | The test's ORDER BY of `id`, `thing` descending prints `ORDER BY id, thing DESC`, and its column names hold no marker |
| Scenarios.PageScenario | shared/pageClause_test.go:5-11 | A page with positive limit and offset prints `LIMIT $1 OFFSET $2` after the SELECT |
| Scenarios.PageWithoutOffsetScenario | shared/pageClause_test.go:13-19 | A page whose offset is not positive prints `LIMIT $1` after the SELECT |
| Scenarios.PageWithoutLimitScenario | shared/pageClause_test.go:21-27 | A page whose limit is not positive leaves the bare SELECT |
| Scenarios.EmptySearchScenario | shared/textSearchClause_test.go:15-23 | The newer text search with an empty term under a WHERE leaves the bare SELECT, as the test expects |
| Scenarios.LegacySearchScenario | shared/textSearchClause_test.go:5-13 | The older revision prints `SELECT ... WHERE column ILIKE '%' \|\| $1 \|\| '%'` for a search, whatever the term |
| Scenarios.JoinsRendering | routes/incidentroute/detail.go:54-61 | A space-joined subexpression of one JOIN per table prints the JOIN texts separated by single spaces, vanishes exactly when there are no tables, binds nothing, and is clean for clean table names |
| Scenarios.DetailScenario | routes/incidentroute/detail.go:47-61 | The detail query, a space-joined subexpression of the SELECT and the JOINs subexpression, prints the SELECT, a space and the JOINs (just the SELECT when there are no tables), binds nothing and holds no marker |
| Scenarios.LegacyEmptySearchDisagrees | shared/textSearchClause.go:19-28 | With an empty term the older revision prints the newer one's bare SELECT followed by a spurious `WHERE column ILIKE '%' \|\| $1 \|\| '%'`, and binds the empty string |

## Left out

- HTTP handlers, query-string parsing and the per-route choice of clauses are not modelled. They are request glue over `net/http`, `strconv` and `time`.
- Database execution, prepared statements, row scanning and JSON encoding are not modelled. They are I/O and serialisation.
- Bind values are the opaque `Leaves.Value`. The source passes `interface{}` values and never inspects them.
- Go panics on an enumeration value outside its table. The closed datatypes make such a value unrepresentable.
- A root query nested inside a subquery is not modelled. Its own `String` would number its markers from `$1`, while the outer query still counts its parameters, and no caller builds one.
- A newer NOT or subquery around a nil operand panics in Go. The model's operand is always a clause.
- Determinism is not stated separately: rendering a tree twice gives the same text, and numbering leaves the parameter list alone. Both hold because `Render`, `Params` and `Sql` are pure functions.
- `Clauses.AddClause`, `Legacy.AddClause` and `Queries.AddClause` return new values. In Go, `NewWhereClause`, `NewConditionsClause` and `NewQuery` return pointers, and `AddClause` changes them in place (query/subexpression.go:36-40, shared/whereClause.go:32-34). So in Go, a group extended after it was added to a parent also changes the parent's text, and a group added to itself makes `String` recurse forever. In the model the parent keeps a snapshot of the child, and cycles cannot be built. Every route the server shows finishes building a group before adding it to its parent, so at those call sites the two readings give the same text and parameters.
- `Renumber.Dollar` covers only the positive indices the loop produces, not `fmt.Sprintf`'s general `%d` formatting.
- `Scenarios.OrderScenario`, `Scenarios.CompareScenario` and the other test lemmas are stated for any table, rows, column and values without `?`, rather than for the literal names of the tests. The tests call a `baseQuery()` helper that none of the shown files define; its `Select("test", ["a", "b"])` is inferred from the tests' expected strings. The literal SELECT of the tests is pinned once, by `Scenarios.SelectScenario`, and the literal ORDER BY by `Scenarios.OrderTextScenario`. Evaluating the numbering on whole literal queries is costly to verify.
- The test at shared/query_test.go:5-20 uses `Select`, `RawQuery` and `Build`, which none of the modelled files define, so it is not part of this model.

## Findings

| source | as written | input that shows it | evidently intended | confidence | as-written member | corrected member |
|---|---|---|---|---|---|---|
| shared/textSearchClause.go:19-28 | The older text search always renders `column ILIKE '%' \|\| ? \|\| '%'` and binds its term, even when the term is empty | `NewTextSearchClause("column", "")` in a WHERE after the base SELECT gives `SELECT a, b FROM test WHERE column ILIKE '%' \|\| $1 \|\| '%'`; shared/textSearchClause_test.go:15-23 expects `SELECT a, b FROM test` | An empty term renders nothing and binds nothing, as query/textSearchClause.go:16-29 does | not executed | Scenarios.LegacyEmptySearchDisagrees | Leaves.TextSearchText |
