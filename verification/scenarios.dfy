/**
 The builder's test cases as lemmas. Each test builds a SELECT and adds one
 more clause; the lemmas do the same for any SELECT and any inputs free of
 `?`, and state the SQL text the test expects in those terms. The tests' own
 SELECT comes from a `baseQuery()` helper whose definition is not part of
 this model; from the tests' expected strings it is
 `SelectText("test", ["a", "b"])`, which `SelectScenario` shows to be
 `SELECT a, b FROM test`. The last lemmas cover the incident detail route,
 which joins its clauses with a bare subexpression.
 */
module Scenarios {
  import opened Wrappers
  import Strings
  import opened Enums
  import opened Leaves
  import opened Clauses
  import Queries
  import opened Renumber
  import opened Numbered
  import Legacy

  /** The base query of the tests: `SELECT a, b FROM test`. */
  lemma SelectScenario()
    ensures SelectText("test", ["a", "b"]) == "SELECT a, b FROM test"
    ensures Clean(Select("test", ["a", "b"]))
  {
    TestNamesClean();
    assert ["a", "b"][1..] == ["b"];
    assert Strings.TotalQ(["a", "b"]) == 0;
    SelectTestText();
  }

  lemma TestNamesClean()
    ensures Strings.CountQ("test") == 0 && Strings.CountQ("a") == 0 && Strings.CountQ("b") == 0
  {
  }

  lemma SelectTestText()
    ensures SelectText("test", ["a", "b"]) == "SELECT a, b FROM test"
  {
    assert Strings.Join(["a", "b"], ", ") == "a, b";
  }

  lemma SmallDollars()
    ensures Dollar(1) == "$1" && Dollar(2) == "$2" && Dollar(3) == "$3" && Dollar(4) == "$4"
  {
    assert Strings.Digits(1) == "1" && Strings.Digits(2) == "2";
    assert Strings.Digits(3) == "3" && Strings.Digits(4) == "4";
  }

  /** A SELECT followed by one clause `c`: the SELECT, a space, and `c`
      numbered from `$1`. */
  lemma SelectThen(table: string, rows: seq<string>, c: Clause)
    requires Clean(Select(table, rows)) && Clean(c) && Render(c) != ""
    ensures Queries.Sql(Queries.Query([Select(table, rows), c])) ==
      SelectText(table, rows) + " " + Number(Render(c), 1, |Params(c)|)
  {
    var s := Select(table, rows);
    var x := Number(Render(c), 1, |Params(c)|);
    assert Render(s) == SelectText(table, rows) && Params(s) == [];
    Queries.SqlPair(s, c, 0);
    NumberZero(SelectText(table, rows), 1);
    assert Queries.Sql(Queries.Query([s, c])) == Number(Render(s), 1, 0) + " " + x;
  }

  /** The same, with the clause's numbered text given as `x`. */
  lemma SelectThenText(table: string, rows: seq<string>, c: Clause, x: string)
    requires Clean(Select(table, rows)) && Clean(c) && Render(c) != ""
    requires Number(Render(c), 1, |Params(c)|) == x
    ensures Queries.Sql(Queries.Query([Select(table, rows), c])) == SelectText(table, rows) + " " + x
  {
    SelectThen(table, rows, c);
  }

  /** A SELECT followed by a clause that renders nothing is the bare
      SELECT. */
  lemma SelectThenNothing(table: string, rows: seq<string>, c: Clause)
    requires Clean(Select(table, rows)) && Render(c) == ""
    ensures Queries.Sql(Queries.Query([Select(table, rows), c])) == SelectText(table, rows)
  {
    var b := Select(table, rows);
    Queries.SqlDropVanished(b, c);
    Queries.SqlSingle(b);
    NumberZero(Render(b), 1);
  }

  /** Re-bracketing of the final text. */
  lemma WhereAfter(b: string, x: string)
    ensures b + " " + ("WHERE " + x) == b + " WHERE " + x
  {
  }

  /** An empty WHERE clause added to the query changes nothing. */
  lemma EmptyWhereScenario(table: string, rows: seq<string>, combinator: Combinator)
    requires Clean(Select(table, rows))
    ensures Queries.Sql(Queries.Query([Select(table, rows), NewWhere(combinator)])) == SelectText(table, rows)
  {
    SelectThenNothing(table, rows, NewWhere(combinator));
  }

  /** A WHERE of one clause, with the facts the numbering needs. */
  lemma WhereOfOne(c: Clause)
    requires Clean(c) && Render(c) != ""
    ensures Clean(Where(And, [c])) && Render(Where(And, [c])) != ""
    ensures Params(Where(And, [c])) == Params(c)
    ensures Number(Render(Where(And, [c])), 1, |Params(c)|) == "WHERE " + Number(Render(c), 1, |Params(c)|)
  {
    WhereOne(And, c);
    NumberedWhereOne(And, c, 1, |Params(c)|);
  }

  /** A SELECT followed by a WHERE of one clause `c` whose numbered text is
      `x`: the SELECT, ` WHERE `, and `x`. */
  lemma SelectWhere(table: string, rows: seq<string>, c: Clause, x: string)
    requires Clean(Select(table, rows)) && Clean(c) && Render(c) != ""
    requires Number(Render(c), 1, |Params(c)|) == x
    ensures Queries.Sql(Queries.Query([Select(table, rows), Where(And, [c])]))
      == SelectText(table, rows) + " WHERE " + x
  {
    WhereOfOne(c);
    SelectThen(table, rows, Where(And, [c]));
    WhereAfter(SelectText(table, rows), x);
  }

  /** A compare clause with `Equal`, numbered from `$1`. */
  lemma EqualNumbered(column: string)
    requires Strings.CountQ(column) == 0
    ensures Number(CompareText(Equal, column), 1, 1) == column + " = $1"
  {
    NumberedCompare(Equal, column, 1);
    SmallDollars();
    Strings.Assoc5(column, " ", "=", " ", "$1");
    EqualTail();
  }

  lemma EqualTail()
    ensures " " + "=" + " " + "$1" == " = $1"
  {
  }

  /** `WHERE column = $1` after the SELECT, from a compare clause with
      `Equal`. */
  lemma CompareScenario(table: string, rows: seq<string>, column: string, value: Value)
    requires Clean(Select(table, rows)) && Strings.CountQ(column) == 0
    ensures Queries.Sql(Queries.Query([Select(table, rows), Where(And, [Compare(Equal, column, value)])]))
      == SelectText(table, rows) + " WHERE " + column + " = $1"
  {
    EqualNumbered(column);
    SelectWhere(table, rows, Compare(Equal, column, value), column + " = $1");
    Strings.Assoc3(SelectText(table, rows) + " WHERE ", column, " = $1");
  }

  /** The same text from an equals clause. */
  lemma EqualsScenario(table: string, rows: seq<string>, column: string, value: Value)
    requires Clean(Select(table, rows)) && Strings.CountQ(column) == 0
    ensures Queries.Sql(Queries.Query([Select(table, rows), Where(And, [Equals(column, value)])]))
      == SelectText(table, rows) + " WHERE " + column + " = $1"
  {
    EqualNumbered(column);
    SelectWhere(table, rows, Equals(column, value), column + " = $1");
    Strings.Assoc3(SelectText(table, rows) + " WHERE ", column, " = $1");
  }

  lemma FirstThree()
    ensures Strings.Join(Dollars(1, 3), ", ") == "$1, $2, $3"
    ensures Strings.Join(Dollars(2, 3), ", ") == "$2, $3, $4"
  {
    SmallDollars();
    assert Dollars(1, 3) == ["$1", "$2", "$3"];
    assert Dollars(2, 3) == ["$2", "$3", "$4"];
  }

  /** An IN clause under a WHERE numbers one marker per value, in order. */
  lemma {:induction false} InScenario(table: string, rows: seq<string>, column: string, values: seq<int>)
    requires Clean(Select(table, rows)) && Strings.CountQ(column) == 0 && |values| >= 1
    ensures Queries.Sql(Queries.Query([Select(table, rows), Where(And, [In(column, values)])]))
      == SelectText(table, rows) + " WHERE " + column + " IN (" + Strings.Join(Dollars(1, |values|), ", ") + ")"
  {
    var j := Strings.Join(Dollars(1, |values|), ", ");
    NumberedIn(column, values, 1);
    SelectWhere(table, rows, In(column, values), column + " IN (" + j + ")");
    Strings.Assoc5(SelectText(table, rows) + " WHERE ", column, " IN (", j, ")");
  }

  /** With the three values of the test the markers are `$1, $2, $3`. */
  lemma InThreeScenario(table: string, rows: seq<string>, column: string, values: seq<int>)
    requires Clean(Select(table, rows)) && Strings.CountQ(column) == 0 && |values| == 3
    ensures Queries.Sql(Queries.Query([Select(table, rows), Where(And, [In(column, values)])]))
      == SelectText(table, rows) + " WHERE " + column + " IN (" + "$1, $2, $3" + ")"
  {
    InScenario(table, rows, column, values);
    assert Strings.Join(Dollars(1, |values|), ", ") == "$1, $2, $3" by {
      FirstThree();
    }
  }

  /** An IN clause without values vanishes, and so does its WHERE. */
  lemma IgnoreInScenario(table: string, rows: seq<string>, column: string)
    requires Clean(Select(table, rows))
    ensures Queries.Sql(Queries.Query([Select(table, rows), Where(And, [In(column, [])])])) == SelectText(table, rows)
  {
    WhereRendering(And, [In(column, [])]);
    SelectThenNothing(table, rows, Where(And, [In(column, [])]));
  }

  /** The text search of the test, numbered from `$1`. */
  lemma SearchNumbered(column: string, term: string)
    requires Strings.CountQ(column) == 0 && term != ""
    ensures Params(TextSearch(column, term)) == [Text(term)]
    ensures Number(Render(TextSearch(column, term)), 1, 1) == column + " ILIKE '%' || $1 || '%'"
  {
    SearchTextNumbered(column);
  }

  /** The ILIKE fragment, numbered from `$1`. */
  lemma SearchTextNumbered(column: string)
    requires Strings.CountQ(column) == 0
    ensures Number(SearchText(column), 1, 1) == column + " ILIKE '%' || $1 || '%'"
  {
    NumberedSearch(column, 1);
    SmallDollars();
    Strings.Assoc4(column, " ILIKE '%' || ", "$1", " || '%'");
    SearchTail();
  }

  lemma SearchTail()
    ensures " ILIKE '%' || " + "$1" + " || '%'" == " ILIKE '%' || $1 || '%'"
  {
  }

  /** The IN clause of the test, numbered from `$2`. */
  lemma InNumberedFromTwo(column: string, values: seq<int>)
    requires Strings.CountQ(column) == 0 && |values| == 3
    ensures |Params(In(column, values))| == 3
    ensures Number(Render(In(column, values)), 2, 3) == column + " IN (" + "$2, $3, $4" + ")"
  {
    var c := In(column, values);
    assert Params(c) == InParams(values);
    assert Render(c) == InText(column, values);
    NumberedIn(column, values, 2);
    FirstThree();
  }

  /** The WHERE of the test's text search and IN clause: clean, not empty,
      four parameters. */
  lemma CombinedParts(column: string, term: string, values: seq<int>)
    requires Strings.CountQ(column) == 0 && term != "" && |values| == 3
    ensures var w := Where(And, [TextSearch(column, term), In(column, values)]);
      Clean(w) && Render(w) != "" && |Params(w)| == 4
  {
    var s := TextSearch(column, term);
    var i := In(column, values);
    SubParamsPair(s, i);
    WhereRendering(And, [s, i]);
  }

  lemma AndToken()
    ensures Token(And) == " AND "
  {
  }

  /** The WHERE of a text search and an IN clause of three values: the
      search takes `$1` and the IN clause continues from `$2`. */
  lemma CombinedWhere(column: string, term: string, values: seq<int>)
    requires Strings.CountQ(column) == 0 && term != "" && |values| == 3
    ensures var w := Where(And, [TextSearch(column, term), In(column, values)]);
      && Clean(w) && Render(w) != ""
      && Number(Render(w), 1, |Params(w)|)
         == "WHERE " + (column + " ILIKE '%' || $1 || '%'") + " AND " + (column + " IN (" + "$2, $3, $4" + ")")
  {
    var s := TextSearch(column, term);
    var i := In(column, values);
    CombinedParts(column, term, values);
    SearchNumbered(column, term);
    InNumberedFromTwo(column, values);
    NumberedWhereTwo(And, s, i, 1, 1, 3);
    AndToken();
  }

  /** The combined WHERE after the SELECT. */
  lemma CombinedWhereScenario(table: string, rows: seq<string>, column: string, term: string, values: seq<int>)
    requires Clean(Select(table, rows)) && Strings.CountQ(column) == 0 && term != "" && |values| == 3
    ensures Queries.Sql(Queries.Query([Select(table, rows), Where(And, [TextSearch(column, term), In(column, values)])]))
      == SelectText(table, rows) + " " + ("WHERE " + (column + " ILIKE '%' || $1 || '%'") + " AND " + (column + " IN (" + "$2, $3, $4" + ")"))
  {
    CombinedWhere(column, term, values);
    SelectThenText(table, rows, Where(And, [TextSearch(column, term), In(column, values)]),
      "WHERE " + (column + " ILIKE '%' || $1 || '%'") + " AND " + (column + " IN (" + "$2, $3, $4" + ")"));
  }

  /** An ORDER BY clause follows the SELECT and binds nothing. */
  lemma OrderScenario(table: string, rows: seq<string>, ordering: Ordering, columns: seq<string>)
    requires Clean(Select(table, rows)) && Strings.TotalQ(columns) == 0
    ensures Queries.Sql(Queries.Query([Select(table, rows), Order(ordering, columns)]))
      == SelectText(table, rows) + " " + OrderText(ordering, columns)
  {
    var c := Order(ordering, columns);
    SelectThen(table, rows, c);
    NumberZero(Render(c), 1);
  }

  /** The ORDER BY of the test. */
  lemma OrderTextScenario()
    ensures OrderText(Descending, ["id", "thing"]) == "ORDER BY id, thing DESC"
    ensures Strings.TotalQ(["id", "thing"]) == 0
  {
  }

  /** The page clause of the test, numbered from `$1`. */
  lemma PageNumbered(limit: int, offset: int)
    requires limit > 0 && offset > 0
    ensures Number(Render(Page(limit, offset)), 1, |Params(Page(limit, offset))|) == "LIMIT $1 OFFSET $2"
  {
    var c := Page(limit, offset);
    assert Render(c) == PageText(limit, offset) && Params(c) == PageParams(limit, offset);
    NumberedPage(limit, offset, 1);
    SmallDollars();
    PageDollars();
  }

  lemma PageDollars()
    ensures "LIMIT " + "$1" + " OFFSET " + "$2" == "LIMIT $1 OFFSET $2"
  {
  }

  /** A page clause with a positive limit and offset numbers both. */
  lemma PageScenario(table: string, rows: seq<string>, limit: int, offset: int)
    requires Clean(Select(table, rows)) && limit > 0 && offset > 0
    ensures Queries.Sql(Queries.Query([Select(table, rows), Page(limit, offset)]))
      == SelectText(table, rows) + " " + "LIMIT $1 OFFSET $2"
  {
    PageNumbered(limit, offset);
    SelectThenText(table, rows, Page(limit, offset), "LIMIT $1 OFFSET $2");
  }

  /** An offset that is not positive drops the OFFSET part. */
  lemma PageWithoutOffsetScenario(table: string, rows: seq<string>, limit: int, offset: int)
    requires Clean(Select(table, rows)) && limit > 0 && offset <= 0
    ensures Queries.Sql(Queries.Query([Select(table, rows), Page(limit, offset)]))
      == SelectText(table, rows) + " " + "LIMIT $1"
  {
    assert Number(PageText(limit, offset), 1, 1) == "LIMIT $1" by {
      NumberedPage(limit, offset, 1);
      SmallDollars();
    }
    SelectThenText(table, rows, Page(limit, offset), "LIMIT $1");
  }

  /** A limit that is not positive drops the page clause altogether. */
  lemma PageWithoutLimitScenario(table: string, rows: seq<string>, limit: int, offset: int)
    requires Clean(Select(table, rows)) && limit <= 0
    ensures Queries.Sql(Queries.Query([Select(table, rows), Page(limit, offset)])) == SelectText(table, rows)
  {
    SelectThenNothing(table, rows, Page(limit, offset));
  }

  /** The newer text search vanishes on an empty term, and so does its WHERE:
      the query is the bare SELECT. */
  lemma EmptySearchScenario(table: string, rows: seq<string>, column: string)
    requires Clean(Select(table, rows))
    ensures Queries.Sql(Queries.Query([Select(table, rows), Where(And, [TextSearch(column, "")])])) == SelectText(table, rows)
  {
    WhereRendering(And, [TextSearch(column, "")]);
    SelectThenNothing(table, rows, Where(And, [TextSearch(column, "")]));
  }

  /** An absent ignore list is a NOT around an IN clause without values: it
      renders nothing and binds nothing, for any column. */
  lemma AbsentIgnoreList(column: string)
    ensures Render(Not(In(column, []))) == "" && Params(Not(In(column, []))) == []
  {
  }

  /** The older revision's query of a SELECT and a WHERE holding a text
      search. */
  function LegacySearchQuery(table: string, rows: seq<string>, column: string, term: string): Legacy.Query
  {
    Legacy.Query([Legacy.Shared(Select(table, rows)), Legacy.Where(And, [Legacy.Search(column, term)])])
  }

  lemma LegacyWhereOfSearch(column: string, term: string)
    ensures Legacy.Render(Legacy.Where(And, [Legacy.Search(column, term)])) == Some("WHERE " + SearchText(column))
    ensures Legacy.Params(Legacy.Where(And, [Legacy.Search(column, term)])) == Some([Text(term)])
  {
    var n := Legacy.Search(column, term);
    var s := SearchText(column);
    assert Legacy.Render(n) == Some(s);
    assert [n][0] == n && [n][1..] == [];
    assert Legacy.Texts([]) == Some([]);
    assert Legacy.SubParams([]) == Some([]);
    assert Legacy.Texts([n]) == Some([s] + []);
    assert Legacy.SubParams([n]) == Some([Text(term)] + []);
    assert [Text(term)] + [] == [Text(term)];
    assert Legacy.Params(Legacy.Where(And, [n])) == Legacy.SubParams([n]);
    assert Strings.NonEmpty([s]) == [s] by {
      assert [s][1..] == [];
    }
    var r := Legacy.WhereJoin(And, [s]);
    assert r != "" && r[6..] == s;
    assert r == r[..6] + r[6..];
  }

  /** Texts and parameters of two present children of the older revision. */
  lemma LegacyPair(a: Legacy.Node, b: Legacy.Node)
    requires Legacy.Render(a).Some? && Legacy.Render(b).Some?
    requires Legacy.Params(a).Some? && Legacy.Params(b).Some?
    ensures Legacy.Texts([a, b]) == Some([Legacy.Render(a).value, Legacy.Render(b).value])
    ensures Legacy.SubParams([a, b]) == Some(Legacy.Params(a).value + Legacy.Params(b).value)
  {
    assert [a, b][0] == a && [a, b][1..] == [b];
    assert [b][0] == b && [b][1..] == [];
    assert Legacy.Texts([]) == Some([]);
    assert Legacy.SubParams([]) == Some([]);
    assert Legacy.Texts([b]) == Some([Legacy.Render(b).value] + []);
    assert Legacy.SubParams([b]) == Some(Legacy.Params(b).value + []);
    assert [Legacy.Render(b).value] + [] == [Legacy.Render(b).value];
    assert Legacy.Params(b).value + [] == Legacy.Params(b).value;
    var ra, rb := Legacy.Render(a).value, Legacy.Render(b).value;
    assert Legacy.Texts([a, b]) == Some([ra] + [rb]);
    assert [ra] + [rb] == [ra, rb];
  }

  /** The older query's text before numbering, and its parameters. */
  lemma LegacySearchJoined(table: string, rows: seq<string>, column: string, term: string)
    requires Clean(Select(table, rows))
    ensures Legacy.Joined(LegacySearchQuery(table, rows, column, term))
      == Some(SelectText(table, rows) + " " + ("WHERE " + SearchText(column)))
    ensures Legacy.SubParams(LegacySearchQuery(table, rows, column, term).parts) == Some([Text(term)])
  {
    var q := LegacySearchQuery(table, rows, column, term);
    var rb := SelectText(table, rows);
    var x := "WHERE " + SearchText(column);
    LegacyWhereOfSearch(column, term);
    assert Legacy.Params(q.parts[0]) == Some([]);
    LegacyPair(q.parts[0], q.parts[1]);
    assert q.parts == [q.parts[0], q.parts[1]];
    assert Strings.NonEmpty([rb, x]) == [rb, x] by {
      assert [rb, x][1..] == [x] && [x][1..] == [];
    }
    assert Strings.Join([rb, x], " ") == rb + " " + x by {
      assert [rb, x][1..] == [x];
    }
    assert [] + [Text(term)] == [Text(term)];
  }

  /** The older revision prints the text search and binds its term whatever
      the term is: with the empty term of the test that expects the bare
      SELECT, it still prints the WHERE. */
  lemma LegacySearchScenario(table: string, rows: seq<string>, column: string, term: string)
    requires Clean(Select(table, rows)) && Strings.CountQ(column) == 0
    ensures Legacy.Sql(LegacySearchQuery(table, rows, column, term))
      == Some(SelectText(table, rows) + " " + ("WHERE " + (column + " ILIKE '%' || $1 || '%'")))
  {
    var rb := SelectText(table, rows);
    var q := LegacySearchQuery(table, rows, column, term);
    LegacySearchJoined(table, rows, column, term);
    LegacySqlOf(q, rb + " " + ("WHERE " + SearchText(column)), [Text(term)]);
    MarkerCount(Select(table, rows));
    SearchTextNumbered(column);
    NumberBehindWhere(rb, SearchText(column), column + " ILIKE '%' || $1 || '%'");
  }

  /** The older query's SQL text, once its text and parameters are known. */
  lemma LegacySqlOf(q: Legacy.Query, text: string, params: seq<Value>)
    requires Legacy.Joined(q) == Some(text) && Legacy.SubParams(q.parts) == Some(params)
    ensures Legacy.Sql(q) == Some(Number(text, 1, |params|))
  {
  }

  /** Numbering a single marker after a marker-free text and `WHERE `. */
  lemma NumberBehindWhere(b: string, s: string, x: string)
    requires Strings.CountQ(b) == 0 && Number(s, 1, 1) == x
    ensures Number(b + " " + ("WHERE " + s), 1, 1) == b + " " + ("WHERE " + x)
  {
    WhereTextLiterals();
    Strings.SpaceHasNoMarker();
    Strings.Assoc3(b, " ", "WHERE " + s);
    Strings.Assoc3(b, " ", "WHERE " + x);
    NumberSkip(b, " " + ("WHERE " + s), 1, 1);
    NumberSkip(" ", "WHERE " + s, 1, 1);
    NumberSkip("WHERE ", s, 1, 1);
  }

  /** With an empty term the older revision disagrees with the newer one:
      where the newer prints the bare SELECT, the older appends a WHERE with
      a text search that binds the empty string. */
  lemma {:induction false} LegacyEmptySearchDisagrees(table: string, rows: seq<string>, column: string)
    requires Clean(Select(table, rows)) && Strings.CountQ(column) == 0
    ensures Legacy.Sql(LegacySearchQuery(table, rows, column, "")) ==
      Some(Queries.Sql(Queries.Query([Select(table, rows), Where(And, [TextSearch(column, "")])]))
        + " " + ("WHERE " + (column + " ILIKE '%' || $1 || '%'")))
    ensures Legacy.SubParams(LegacySearchQuery(table, rows, column, "").parts) == Some([Text("")])
  {
    LegacySearchScenario(table, rows, column, "");
    LegacySearchJoined(table, rows, column, "");
    EmptySearchScenario(table, rows, column);
  }

  /** One JOIN clause per table, in the order of the tables. */
  function JoinAll(tables: seq<string>): (r: seq<Clause>)
    ensures |r| == |tables|
    ensures forall i :: 0 <= i < |tables| ==> r[i] == Join(tables[i])
  {
    if |tables| == 0 then [] else [Join(tables[0])] + JoinAll(tables[1..])
  }

  /** The text of each table's JOIN, in the order of the tables. */
  function JoinTexts(tables: seq<string>): (r: seq<string>)
    ensures |r| == |tables|
    ensures forall i :: 0 <= i < |tables| ==> r[i] == JoinText(tables[i])
  {
    if |tables| == 0 then [] else [JoinText(tables[0])] + JoinTexts(tables[1..])
  }

  lemma JoinAllClean(tables: seq<string>)
    requires forall i :: 0 <= i < |tables| ==> Strings.CountQ(tables[i]) == 0
    ensures AllClean(JoinAll(tables))
  {
    var js := JoinAll(tables);
    forall i | 0 <= i < |js| ensures Clean(js[i]) {
      assert js[i] == Join(tables[i]);
    }
  }

  /** The JOINs all survive the filter: the joined text is the JOIN texts
      joined, and it is empty exactly when there are no tables. */
  lemma JoinAllRenders(tables: seq<string>)
    ensures Strings.NonEmpty(Renders(JoinAll(tables))) == JoinTexts(tables)
    ensures tables != [] ==> Render(JoinAll(tables)[0]) != ""
  {
    assert Renders(JoinAll(tables)) == JoinTexts(tables);
    Strings.NonEmptyKeepsAll(JoinTexts(tables));
  }

  lemma {:induction false} JoinAllNoParams(tables: seq<string>)
    ensures SubParams(JoinAll(tables)) == []
  {
    if |tables| > 0 {
      assert JoinAll(tables)[1..] == JoinAll(tables[1..]);
      JoinAllNoParams(tables[1..]);
    }
  }

  /** The JOINs of the detail query: a space-joined subexpression of one
      JOIN per table prints the JOIN texts separated by single spaces,
      vanishes exactly when there are no tables, and binds nothing. */
  lemma {:induction false} JoinsRendering(tables: seq<string>)
    requires forall i :: 0 <= i < |tables| ==> Strings.CountQ(tables[i]) == 0
    ensures var joins := Sub(" ", JoinAll(tables));
      && Clean(joins) && Params(joins) == []
      && Render(joins) == Strings.Join(JoinTexts(tables), " ")
      && (Render(joins) == "" <==> tables == [])
  {
    var js := JoinAll(tables);
    var joins := Sub(" ", js);
    assert Clean(joins) == (Strings.CountQ(" ") == 0 && AllClean(js));
    Strings.SpaceHasNoMarker();
    JoinAllClean(tables);
    SubRendering(" ", js);
    JoinAllRenders(tables);
    JoinAllNoParams(tables);
  }

  /** The incident detail query: a bare space-joined subexpression holding
      the SELECT and a second space-joined subexpression of one JOIN per
      table. It prints the SELECT, then the JOINs separated by single spaces,
      binds nothing, and holds no marker when the names hold none. */
  lemma DetailScenario(table: string, rows: seq<string>, tables: seq<string>)
    requires Clean(Select(table, rows))
    requires forall i :: 0 <= i < |tables| ==> Strings.CountQ(tables[i]) == 0
    ensures var d := Sub(" ", [Select(table, rows), Sub(" ", JoinAll(tables))]);
      && Clean(d) && Params(d) == [] && Strings.CountQ(Render(d)) == 0
      && Render(d) == if tables == [] then SelectText(table, rows)
                      else SelectText(table, rows) + " " + Strings.Join(JoinTexts(tables), " ")
  {
    var sel := Select(table, rows);
    var joins := Sub(" ", JoinAll(tables));
    JoinsRendering(tables);
    Strings.SpaceHasNoMarker();
    SubPairRendering(" ", sel, joins);
    MarkerCount(Sub(" ", [sel, joins]));
  }
}
