/**
 The root query: a subexpression joined with single spaces whose markers are
 numbered `$1`, `$2`, ... when it is turned into its final SQL text, one
 number per bind parameter.
 */
module Queries {
  import opened Wrappers
  import Strings
  import opened Leaves
  import Clauses
  import opened Renumber

  datatype Query = Query(parts: seq<Clauses.Clause>)

  /** `NewQuery`: no clauses yet. */
  function NewQuery(): (q: Query)
    ensures Joined(q) == "" && Params(q) == []
  {
    Query([])
  }

  /** The query's text before numbering: the non-empty clause texts joined
      with a single space. */
  function Joined(q: Query): string
  {
    Clauses.SubText(" ", q.parts)
  }

  /** The query's bind parameters, every clause's in clause order. */
  function Params(q: Query): seq<Value>
  {
    Clauses.SubParams(q.parts)
  }

  /** `AddClause` of the root query: a nil clause changes nothing; any other
      clause is space-glued after the text so far and its parameters follow
      the ones so far. */
  function AddClause(q: Query, child: Option<Clauses.Clause>): (r: Query)
    ensures child.None? ==> r == q
    ensures Joined(r) == Clauses.Glue(Joined(q), Clauses.ChildText(child), " ")
    ensures Params(r) == Params(q) + Clauses.ChildParams(child)
  {
    Query(Clauses.AddPart(q.parts, child))
  }

  /** Adding a clause appends it to the query's clauses. */
  lemma AddClauseSome(q: Query, c: Clauses.Clause)
    ensures AddClause(q, Some(c)) == Query(q.parts + [c])
  {
  }

  /** A trailing clause that renders nothing does not change the SQL. */
  lemma SqlDropVanished(b: Clauses.Clause, c: Clauses.Clause)
    requires Clauses.Render(c) == ""
    ensures Sql(Query([b, c])) == Sql(Query([b]))
  {
    AddVanished(Query([b]), c);
    AddClauseSome(Query([b]), c);
    assert [b] + [c] == [b, c];
  }

  /** A query of one clause is that clause, numbered from `$1`. */
  lemma SqlSingle(b: Clauses.Clause)
    ensures Sql(Query([b])) == Number(Clauses.Render(b), 1, |Clauses.Params(b)|)
  {
    Clauses.SubTextOne(" ", b);
    Clauses.SubParamsOne(b);
  }

  predicate Clean(q: Query)
  {
    Clauses.AllClean(q.parts)
  }

  /** A clean query's text holds exactly one marker per parameter. */
  lemma JoinedMarkerCount(q: Query)
    requires Clean(q)
    ensures Strings.CountQ(Joined(q)) == |Params(q)|
  {
    Strings.SpaceHasNoMarker();
    Clauses.SubTextCount(" ", q.parts);
    Clauses.PartsMarkerCount(q.parts);
  }

  /** `String` of the root query, as the source computes it: one
      `strings.Replace(text, "?", "$k", 1)` per parameter, k counting from 1.
      The result is the one-pass numbering of the first markers, one per
      parameter; for a clean query that is every marker, so no `?` is left,
      the k-th marker from the left became `$k`, and the text between the
      markers is untouched. */
  method QueryString(q: Query) returns (sql: string)
    ensures sql == Number(Joined(q), 1, |Params(q)|) == Sql(q)
    ensures Clean(q) ==> Strings.CountQ(sql) == 0
    ensures Clean(q) ==> |Segments(Joined(q))| == |Params(q)| + 1
    ensures Clean(q) ==> sql == Interleave(Segments(Joined(q)), 1)
  {
    var text := Joined(q);
    var n := |Params(q)|;
    sql := text;
    NumberZero(text, 1);
    for i := 0 to n
      invariant sql == Number(text, 1, i)
    {
      sql := ReplaceFirst(sql, Dollar(i + 1));
      NumberStep(text, 1, i);
    }
    if Clean(q) {
      JoinedMarkerCount(q);
      NumberCount(text, 1, n);
      NumberAligned(text, 1);
    }
  }

  /** The final SQL text: the one-pass numbering of one marker per
      parameter, which is what `QueryString` computes. */
  function Sql(q: Query): string
  {
    Number(Joined(q), 1, |Params(q)|)
  }

  /** A clean query's SQL text has no marker left: the k-th marker became
      `$k` and the text between markers is kept. A text without markers is
      printed as it is. */
  lemma SqlShape(q: Query)
    ensures Clean(q) ==> Strings.CountQ(Sql(q)) == 0 && Sql(q) == Interleave(Segments(Joined(q)), 1)
    ensures Strings.CountQ(Joined(q)) == 0 ==> Sql(q) == Joined(q)
  {
    var text := Joined(q);
    NumberCount(text, 1, |Params(q)|);
    if Clean(q) {
      JoinedMarkerCount(q);
      NumberAligned(text, 1);
    }
    if Strings.CountQ(text) == 0 {
      NumberSaturates(text, 1, |Params(q)|);
      NumberZero(text, 1);
    }
  }

  /** Clauses are numbered in the order they were added: appending a clause
      leaves the numbered text of the earlier ones as it was, and the new
      clause's markers continue the count from there. */
  lemma AddClauseNumbering(q: Query, c: Clauses.Clause, n: nat)
    requires Clean(q) && Clauses.Clean(c) && n == |Params(q)|
    requires Joined(q) != "" && Clauses.Render(c) != ""
    ensures Sql(AddClause(q, Some(c))) ==
      Sql(q) + " " + Number(Clauses.Render(c), n + 1, |Clauses.Params(c)|)
  {
    var r := AddClause(q, Some(c));
    var m := |Clauses.Params(c)|;
    JoinedMarkerCount(q);
    SqlAppend(r, Joined(q), Clauses.Render(c), n, m);
    SqlOf(q, Joined(q), n);
  }

  /** The SQL text of a query whose text and parameter count are known. */
  lemma SqlOf(q: Query, text: string, n: nat)
    requires Joined(q) == text && |Params(q)| == n
    ensures Sql(q) == Number(text, 1, n)
  {
  }

  /** The SQL text of a query whose text is two space-joined pieces, the
      first holding exactly `n` markers. */
  lemma SqlAppend(q: Query, a: string, b: string, n: nat, m: nat)
    requires Joined(q) == a + " " + b && |Params(q)| == n + m
    requires Strings.CountQ(a) == n
    ensures Sql(q) == Number(a, 1, n) + " " + Number(b, n + 1, m)
  {
    NumberAppend(a, b, n, m);
  }

  /** Numbering a space-joined pair whose first half holds exactly `n`
      markers. */
  lemma NumberAppend(a: string, b: string, n: nat, m: nat)
    requires Strings.CountQ(a) == n
    ensures Number(a + " " + b, 1, n + m) == Number(a, 1, n) + " " + Number(b, n + 1, m)
  {
    Strings.SpaceHasNoMarker();
    Strings.Assoc3(a, " ", b);
    NumberShift(a, " " + b, 1, n, m);
    NumberSkip(" ", b, 1 + n, m);
    Strings.Assoc3(Number(a, 1, n), " ", Number(b, 1 + n, m));
  }

  /** A query of two non-vanishing clean clauses: the first is numbered from
      `$1`, the second continues where the first stopped. */
  lemma {:induction false} SqlPair(a: Clauses.Clause, b: Clauses.Clause, n: nat)
    requires Clauses.Clean(a) && Clauses.Clean(b) && n == |Clauses.Params(a)|
    requires Clauses.Render(a) != "" && Clauses.Render(b) != ""
    ensures Sql(Query([a, b])) ==
      Number(Clauses.Render(a), 1, n) + " " + Number(Clauses.Render(b), n + 1, |Clauses.Params(b)|)
  {
    var q := Query([a, b]);
    var m := |Clauses.Params(b)|;
    Clauses.SubTextPair(" ", a, b);
    Clauses.SubParamsPair(a, b);
    Clauses.MarkerCount(a);
    SqlAppend(q, Clauses.Render(a), Clauses.Render(b), n, m);
  }

  /** Adding a clause that renders nothing leaves the final SQL text as it
      was: an empty WHERE, a NOT around an empty IN, an empty text search. */
  lemma AddVanished(q: Query, c: Clauses.Clause)
    requires Clauses.Render(c) == ""
    ensures Sql(AddClause(q, Some(c))) == Sql(q)
    ensures Params(AddClause(q, Some(c))) == Params(q)
  {
    Clauses.VanishedHasNoParams(c);
    var r := AddClause(q, Some(c));
    assert Joined(r) == Joined(q);
    assert Params(r) == Params(q) + [];
  }
}
