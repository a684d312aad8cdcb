/**
 The final text of each clause once the root query has numbered its markers:
 the k-th marker of a clause whose markers start at number `k` becomes `$k`.
 These are the shapes the builder's users see, derived from the rendering and
 the one-pass numbering without evaluating either on a particular input.
 */
module Numbered {
  import opened Strings
  import opened Enums
  import opened Leaves
  import Clauses
  import opened Renumber

  /** `$k, $k+1, ..., $k+n-1`, as separate strings. */
  function Dollars(k: nat, n: nat): (r: seq<string>)
    decreases n
    ensures |r| == n
    ensures forall i :: 0 <= i < n ==> r[i] == Dollar(k + i)
  {
    if n == 0 then [] else [Dollar(k)] + Dollars(k + 1, n - 1)
  }

  /** A compare clause prints `column op $k`. */
  lemma NumberedCompare(op: Comparator, column: string, k: nat)
    requires CountQ(column) == 0
    ensures Number(CompareText(op, column), k, 1) == column + " " + OperatorText(op) + " " + Dollar(k)
  {
    var a := column + " " + OperatorText(op) + " ";
    CompareTextLiterals();
    CountQAppend(column, " ");
    CountQAppend(column + " ", OperatorText(op));
    CountQAppend(column + " " + OperatorText(op), " ");
    assert CompareText(op, column) == a + "?" + "";
    NumberFirst(a, "", k, 1);
  }

  /** A text search prints `column ILIKE '%' || $k || '%'`. */
  lemma NumberedSearch(column: string, k: nat)
    requires CountQ(column) == 0
    ensures Number(SearchText(column), k, 1) == column + " ILIKE '%' || " + Dollar(k) + " || '%'"
  {
    SearchTextPieces();
    CountQAppend(column, " ILIKE '%' || ");
    NumberFirst(column + " ILIKE '%' || ", " || '%'", k, 1);
    NumberZero(" || '%'", k + 1);
  }

  /** The marker list of an IN clause prints `$k, $k+1, ...`. */
  lemma {:induction false} NumberedMarkers(k: nat, n: nat)
    requires n >= 1
    decreases n
    ensures Number(Join(Markers(n), ", "), k, n) == Join(Dollars(k, n), ", ")
  {
    if n == 1 {
      assert Join(Markers(1), ", ") == "?" + "";
      NumberHead("", k, 1);
      NumberZero("", k + 1);
      assert Join(Dollars(k, 1), ", ") == Dollar(k);
    } else {
      var rest := Join(Markers(n - 1), ", ");
      var tail := Join(Dollars(k + 1, n - 1), ", ");
      assert Join(Markers(n), ", ") == "?" + (", " + rest) by {
        assert Markers(n)[0] == "?" && Markers(n)[1..] == Markers(n - 1);
        Assoc3("?", ", ", rest);
      }
      NumberHead(", " + rest, k, n);
      SelectTextLiterals();
      NumberSkip(", ", rest, k + 1, n - 1);
      NumberedMarkers(k + 1, n - 1);
      assert Join(Dollars(k, n), ", ") == Dollar(k) + (", " + tail) by {
        assert Dollars(k, n)[0] == Dollar(k) && Dollars(k, n)[1..] == Dollars(k + 1, n - 1);
        Assoc3(Dollar(k), ", ", tail);
      }
    }
  }

  /** A leading marker becomes `$k`. */
  lemma NumberHead(b: string, k: nat, n: nat)
    requires n >= 1
    ensures Number("?" + b, k, n) == Dollar(k) + Number(b, k + 1, n - 1)
  {
    assert ("?" + b)[0] == '?' && ("?" + b)[1..] == b;
  }

  /** An IN clause with values prints `column IN ($k, ..., $k+n-1)`. */
  lemma NumberedIn(column: string, values: seq<int>, k: nat)
    requires CountQ(column) == 0 && |values| >= 1
    ensures Number(InText(column, values), k, |values|) ==
      column + " IN (" + Join(Dollars(k, |values|), ", ") + ")"
  {
    InTextLiterals();
    CountQAppend(column, " IN (");
    NumberedMarkers(k, |values|);
    NumberParenthesised(InText(column, values), column + " IN (", InMarkers(|values|), k, |values|,
      Join(Dollars(k, |values|), ", "));
  }

  /** A marker-free prefix, `n` markers numbered to `j`, and a closing
      parenthesis. */
  lemma NumberParenthesised(w: string, pre: string, m: string, k: nat, n: nat, j: string)
    requires w == pre + m + ")" && CountQ(pre) == 0 && CountQ(m) == n && Number(m, k, n) == j
    ensures Number(w, k, n) == pre + j + ")"
  {
    InTextLiterals();
    Assoc3(pre, m, ")");
    NumberSkip(pre, m + ")", k, n);
    NumberShift(m, ")", k, n, 0);
    NumberZero(")", k + n);
    Assoc3(pre, j, ")");
  }

  /** A page clause prints `LIMIT $k`, `LIMIT $k OFFSET $k+1`, or nothing. */
  lemma NumberedPage(limit: int, offset: int, k: nat)
    ensures Number(PageText(limit, offset), k, |PageParams(limit, offset)|) ==
      if limit <= 0 then ""
      else if offset <= 0 then "LIMIT " + Dollar(k)
      else "LIMIT " + Dollar(k) + " OFFSET " + Dollar(k + 1)
  {
    if limit > 0 && offset <= 0 {
      NumberedLimit(k);
    } else if limit > 0 {
      NumberedLimitOffset(k);
    }
  }

  lemma NumberedLimit(k: nat)
    ensures Number("LIMIT ?", k, 1) == "LIMIT " + Dollar(k)
  {
    PageLiterals();
    assert "LIMIT ?" == "LIMIT " + "?" + "";
    NumberFirst("LIMIT ", "", k, 1);
  }

  lemma NumberedLimitOffset(k: nat)
    ensures Number("LIMIT ? OFFSET ?", k, 2) == "LIMIT " + Dollar(k) + " OFFSET " + Dollar(k + 1)
  {
    PageLiterals();
    LimitOffsetPieces();
    NumberFirst("LIMIT ", " OFFSET " + "?" + "", k, 2);
    NumberFirst(" OFFSET ", "", k + 1, 1);
    NumberZero("", k + 2);
    Assoc3("LIMIT " + Dollar(k), " OFFSET ", Dollar(k + 1));
  }

  lemma LimitOffsetPieces()
    ensures "LIMIT ? OFFSET ?" == "LIMIT " + "?" + (" OFFSET " + "?" + "")
  {
  }

  lemma PageLiterals()
    ensures CountQ("LIMIT ") == 0 && CountQ(" OFFSET ") == 0
  {
  }

  /** A WHERE clause with one surviving child prints `WHERE ` and the child's
      numbered text. */
  lemma NumberedWhereOne(combinator: Combinator, c: Clauses.Clause, k: nat, m: nat)
    requires Clauses.Render(c) != ""
    ensures Number(Clauses.Render(Clauses.Where(combinator, [c])), k, m) == "WHERE " + Number(Clauses.Render(c), k, m)
  {
    WhereTextLiterals();
    assert Clauses.Renders([c]) == [Clauses.Render(c)];
    assert Clauses.Render(Clauses.Where(combinator, [c])) == "WHERE " + Clauses.Render(c);
    NumberSkip("WHERE ", Clauses.Render(c), k, m);
  }

  /** A WHERE clause with two surviving children prints `WHERE `, the first
      child numbered from `$k`, the connector, and the second child numbered
      from where the first stopped. */
  lemma NumberedWhereTwo(combinator: Combinator, c1: Clauses.Clause, c2: Clauses.Clause, k: nat, n: nat, m: nat)
    requires Clauses.Clean(c1) && n == |Clauses.Params(c1)|
    requires Clauses.Render(c1) != "" && Clauses.Render(c2) != ""
    ensures Number(Clauses.Render(Clauses.Where(combinator, [c1, c2])), k, n + m) ==
      "WHERE " + Number(Clauses.Render(c1), k, n) + Token(combinator) + Number(Clauses.Render(c2), k + n, m)
  {
    Clauses.MarkerCount(c1);
    WhereTwoText(combinator, c1, c2);
    NumberPair(Clauses.Render(Clauses.Where(combinator, [c1, c2])), Clauses.Render(c1), Token(combinator),
      Clauses.Render(c2), k, n, m);
  }

  lemma {:induction false} WhereTwoText(combinator: Combinator, c1: Clauses.Clause, c2: Clauses.Clause)
    requires Clauses.Render(c1) != "" && Clauses.Render(c2) != ""
    ensures Clauses.Render(Clauses.Where(combinator, [c1, c2])) ==
      "WHERE " + (Clauses.Render(c1) + (Token(combinator) + Clauses.Render(c2)))
  {
    var t := Token(combinator);
    Clauses.SubTextPair(t, c1, c2);
    Assoc3(Clauses.Render(c1), t, Clauses.Render(c2));
    WhereOf(combinator, [c1, c2], Clauses.Render(c1) + (t + Clauses.Render(c2)));
  }

  /** A WHERE whose joined children are the non-empty text `x`. */
  lemma WhereOf(combinator: Combinator, parts: seq<Clauses.Clause>, x: string)
    requires Clauses.SubText(Token(combinator), parts) == x && x != ""
    ensures Clauses.Render(Clauses.Where(combinator, parts)) == "WHERE " + x
  {
    WhereUnfold(combinator, parts);
    WhereTextOf(x);
  }

  lemma WhereTextOf(inner: string)
    requires inner != ""
    ensures WhereText(inner) == "WHERE " + inner
  {
  }

  /** Numbering `WHERE a t b` where `a` holds `n` markers and `t` none. */
  lemma NumberPair(w: string, a: string, t: string, b: string, k: nat, n: nat, m: nat)
    requires w == "WHERE " + (a + (t + b))
    requires CountQ(a) == n && CountQ(t) == 0
    ensures Number(w, k, n + m) == "WHERE " + Number(a, k, n) + t + Number(b, k + n, m)
  {
    NumberTriple(a, t, b, k, n, m);
    NumberAfterWhere(w, a + (t + b), k, n + m);
    AssocRight4("WHERE ", Number(a, k, n), t, Number(b, k + n, m));
  }

  /** Numbering across `a`, a marker-free connector `t`, and `b`. */
  lemma NumberTriple(a: string, t: string, b: string, k: nat, n: nat, m: nat)
    requires CountQ(a) == n && CountQ(t) == 0
    ensures Number(a + (t + b), k, n + m) == Number(a, k, n) + (t + Number(b, k + n, m))
  {
    NumberShift(a, t + b, k, n, m);
    NumberSkip(t, b, k + n, m);
  }

  /** The `WHERE ` keyword is copied through numbering. */
  lemma NumberAfterWhere(w: string, x: string, k: nat, j: nat)
    requires w == "WHERE " + x
    ensures Number(w, k, j) == "WHERE " + Number(x, k, j)
  {
    WhereTextLiterals();
    NumberSkip("WHERE ", x, k, j);
  }

  lemma WhereUnfold(combinator: Combinator, parts: seq<Clauses.Clause>)
    ensures Clauses.Render(Clauses.Where(combinator, parts)) == WhereText(Clauses.SubText(Token(combinator), parts))
  {
  }
}
