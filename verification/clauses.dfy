/**
 The clause tree of the newer revision: the leaves, the two wrappers (NOT and
 a parenthesised subquery), a bare subexpression with a caller-chosen
 connector, and the two groups built on one (a WHERE clause and a
 parenthesised conditions group), rendered to text with `?` markers and to the
 list of bind parameters those markers stand for.

 A group is a subexpression: it renders every child, drops the children whose
 text is empty, joins the survivors with its connector, and vanishes itself
 when nothing survived. Its parameters are every child's parameters, in child
 order.
 */
module Clauses {
  import opened Wrappers
  import Strings
  import opened Enums
  import opened Leaves

  datatype Clause =
    | Select(table: string, rows: seq<string>)
    | Join(table: string)
    | Insert(table: string)
    | Group(column: string)
    | Raw(text: string)
    | Compare(comparator: Comparator, column: string, value: Value)
    | Equals(column: string, value: Value)
    | TextSearch(column: string, term: string)
    | In(column: string, values: seq<int>)
    | Order(ordering: Ordering, columns: seq<string>)
    | Page(limit: int, offset: int)
    | Not(inner: Clause)
    | Subquery(inner: Clause)
    | Where(combinator: Combinator, parts: seq<Clause>)
    | Conditions(combinator: Combinator, parts: seq<Clause>)
    | Sub(connector: string, parts: seq<Clause>)

  /** The SQL text of a clause, with `?` markers. */
  function Render(c: Clause): string
    decreases c, 2
  {
    match c
    case Select(table, rows) => SelectText(table, rows)
    case Join(table) => JoinText(table)
    case Insert(table) => InsertText(table)
    case Group(column) => GroupText(column)
    case Raw(text) => text
    case Compare(op, column, _) => CompareText(op, column)
    case Equals(column, _) => EqualsText(column)
    case TextSearch(column, term) => TextSearchText(column, term)
    case In(column, values) => InText(column, values)
    case Order(ordering, columns) => OrderText(ordering, columns)
    case Page(limit, offset) => PageText(limit, offset)
    case Not(inner) => NotText(Render(inner))
    case Subquery(inner) => ParenText(Render(inner))
    case Where(combinator, parts) => WhereText(SubText(Token(combinator), parts))
    case Conditions(combinator, parts) => GroupParenText(SubText(Token(combinator), parts))
    case Sub(connector, parts) => SubText(connector, parts)
  }

  /** A subexpression's text: the non-empty child renderings, in order,
      joined by the connector. */
  function SubText(connector: string, parts: seq<Clause>): string
    decreases parts, 1
  {
    Strings.Join(Strings.NonEmpty(Renders(parts)), connector)
  }

  /** Each child's rendering, position by position. */
  function Renders(parts: seq<Clause>): (r: seq<string>)
    decreases parts, 0
    ensures |r| == |parts|
    ensures forall i :: 0 <= i < |parts| ==> r[i] == Render(parts[i])
  {
    if |parts| == 0 then [] else [Render(parts[0])] + Renders(parts[1..])
  }

  /** The bind parameters of a clause, in marker order. */
  function Params(c: Clause): seq<Value>
    decreases c, 1
  {
    match c
    case Compare(_, _, value) => [value]
    case Equals(_, value) => [value]
    case TextSearch(_, term) => TextSearchParams(term)
    case In(_, values) => InParams(values)
    case Page(limit, offset) => PageParams(limit, offset)
    case Not(inner) => Params(inner)
    case Subquery(inner) => Params(inner)
    case Where(_, parts) => SubParams(parts)
    case Conditions(_, parts) => SubParams(parts)
    case Sub(_, parts) => SubParams(parts)
    case _ => []
  }

  /** A subexpression's parameters: every child's, in child order, whether
      or not the child's text survived. */
  function SubParams(parts: seq<Clause>): seq<Value>
    decreases parts, 0
  {
    if |parts| == 0 then [] else Params(parts[0]) + SubParams(parts[1..])
  }

  /** Text of an optional child: a nil child contributes nothing. */
  function ChildText(child: Option<Clause>): string
  {
    if child.Some? then Render(child.value) else ""
  }

  function ChildParams(child: Option<Clause>): seq<Value>
  {
    if child.Some? then Params(child.value) else []
  }

  /** What joining one more rendering `b` onto an already joined text `a`
      must give: no connector before the first survivor, none after the last,
      and never two in a row. */
  function Glue(a: string, b: string, connector: string): string
  {
    if a == "" then b else if b == "" then a else a + connector + b
  }

  /** A subexpression's `AddClause`: a nil child leaves it as it was; any
      other child is appended after the existing ones, which stay as they
      were. Whatever the connector, the new text is the old text glued to the
      child's, and the new parameters are the old ones followed by the
      child's. */
  function AddPart(parts: seq<Clause>, child: Option<Clause>): (r: seq<Clause>)
    ensures child.None? ==> r == parts
    ensures |r| >= |parts| && r[..|parts|] == parts
    ensures child.Some? ==> |r| == |parts| + 1 && r[|parts|] == child.value
    ensures forall connector :: SubText(connector, r) == Glue(SubText(connector, parts), ChildText(child), connector)
    ensures SubParams(r) == SubParams(parts) + ChildParams(child)
  {
    if child.Some? then
      forall connector ensures SubText(connector, parts + [child.value]) == Glue(SubText(connector, parts), ChildText(child), connector) {
        SubTextSnoc(connector, parts, child.value);
      }
      SubParamsSnoc(parts, child.value);
      parts + [child.value]
    else
      assert parts[..|parts|] == parts;
      parts
  }

  /** A single child's text is the subexpression's text. */
  lemma SubTextOne(t: string, c: Clause)
    ensures SubText(t, [c]) == Render(c)
  {
    assert Renders([c]) == [Render(c)];
  }

  /** Two surviving children joined by the connector. */
  lemma SubTextPair(t: string, c1: Clause, c2: Clause)
    requires Render(c1) != "" && Render(c2) != ""
    ensures SubText(t, [c1, c2]) == Render(c1) + t + Render(c2)
  {
    SubTextOne(t, c1);
    SubTextSnoc(t, [c1], c2);
    assert [c1] + [c2] == [c1, c2];
  }

  /** The parameters of a single child are its own. */
  lemma SubParamsOne(c: Clause)
    ensures SubParams([c]) == Params(c)
  {
    assert [c][0] == c && [c][1..] == [];
    assert SubParams([c]) == Params(c) + [];
  }

  /** The parameters of two children, the first child's first. */
  lemma SubParamsPair(a: Clause, b: Clause)
    ensures SubParams([a, b]) == Params(a) + Params(b)
  {
    assert [a, b][0] == a && [a, b][1..] == [b];
    assert [b][0] == b && [b][1..] == [];
    assert SubParams([b]) == Params(b) + [];
  }

  lemma RendersSnoc(parts: seq<Clause>, x: Clause)
    ensures Renders(parts + [x]) == Renders(parts) + [Render(x)]
  {
  }

  lemma {:induction false} SubParamsSnoc(parts: seq<Clause>, x: Clause)
    ensures SubParams(parts + [x]) == SubParams(parts) + Params(x)
  {
    if |parts| == 0 {
      assert parts + [x] == [x];
      assert [x][1..] == [];
    } else {
      assert (parts + [x])[1..] == parts[1..] + [x];
      SubParamsSnoc(parts[1..], x);
    }
  }

  /** Appending a child to a subexpression glues its rendering onto the old
      text: this characterises the subexpression's text independently of
      how it is computed. */
  lemma {:induction false} SubTextSnoc(connector: string, parts: seq<Clause>, x: Clause)
    ensures SubText(connector, parts + [x]) == Glue(SubText(connector, parts), Render(x), connector)
  {
    var old_ := Strings.NonEmpty(Renders(parts));
    RendersSnoc(parts, x);
    Strings.NonEmptySnoc(Renders(parts), Render(x));
    Strings.JoinEmpty(old_, connector);
    if Render(x) != "" {
      Strings.JoinSnoc(old_, Render(x), connector);
    } else {
      assert old_ + [] == old_;
    }
  }

  /** A subexpression renders nothing exactly when every child does; in
      particular with no children at all. */
  lemma SubTextEmpty(connector: string, parts: seq<Clause>)
    ensures SubText(connector, parts) == "" <==> forall i :: 0 <= i < |parts| ==> Render(parts[i]) == ""
  {
    Strings.NonEmptyNil(Renders(parts));
    Strings.JoinEmpty(Strings.NonEmpty(Renders(parts)), connector);
  }

  /** With a marker-free connector, a subexpression's text carries exactly the
      markers of its children's texts. */
  lemma SubTextCount(connector: string, parts: seq<Clause>)
    requires Strings.CountQ(connector) == 0
    ensures Strings.CountQ(SubText(connector, parts)) == Strings.TotalQ(Renders(parts))
  {
    Strings.JoinCount(Strings.NonEmpty(Renders(parts)), connector);
    Strings.NonEmptyCount(Renders(parts));
  }

  /** `NewWhereClause` / `NewConditionsClause`: a group with no children. */
  function NewWhere(combinator: Combinator): (r: Clause)
    ensures r.Where? && Render(r) == "" && Params(r) == []
  {
    Where(combinator, [])
  }

  function NewConditions(combinator: Combinator): (r: Clause)
    ensures r.Conditions? && Render(r) == "" && Params(r) == []
  {
    Conditions(combinator, [])
  }

  /** `AddClause` of a WHERE clause or a conditions group: forwarded to the
      group's subexpression, so a nil child is dropped. */
  function AddClause(group: Clause, child: Option<Clause>): (r: Clause)
    requires group.Where? || group.Conditions?
    ensures r.Where? == group.Where? && r.Conditions? == group.Conditions?
    ensures r.combinator == group.combinator
    ensures child.None? ==> r == group
    ensures Params(r) == Params(group) + ChildParams(child)
    ensures var t := Token(group.combinator);
      SubText(t, r.parts) == Glue(SubText(t, group.parts), ChildText(child), t)
  {
    var parts := AddPart(group.parts, child);
    if group.Where? then Where(group.combinator, parts) else Conditions(group.combinator, parts)
  }

  /** `newSubexpression(connector)`: a bare subexpression with no children. */
  function NewSub(connector: string): (r: Clause)
    ensures r.Sub? && r.connector == connector && r.parts == []
    ensures Render(r) == "" && Params(r) == []
  {
    Sub(connector, [])
  }

  /** `AddClause` of a bare subexpression: a nil child is dropped; any other
      child's text is glued on with the subexpression's own connector, and
      its parameters are appended. */
  function AddSubClause(s: Clause, child: Option<Clause>): (r: Clause)
    requires s.Sub?
    ensures r.Sub? && r.connector == s.connector
    ensures child.None? ==> r == s
    ensures child.Some? ==> r.parts == s.parts + [child.value]
    ensures Render(r) == Glue(Render(s), ChildText(child), s.connector)
    ensures Params(r) == Params(s) + ChildParams(child)
  {
    Sub(s.connector, AddPart(s.parts, child))
  }

  /** A bare subexpression vanishes exactly when all of its children do;
      unlike a WHERE or a conditions group it adds nothing around the joined
      children. Its parameters are its children's. */
  lemma {:induction false} SubRendering(connector: string, parts: seq<Clause>)
    ensures Render(Sub(connector, parts)) == "" <==> forall i :: 0 <= i < |parts| ==> Render(parts[i]) == ""
    ensures Render(Sub(connector, parts)) == Strings.Join(Strings.NonEmpty(Renders(parts)), connector)
    ensures Params(Sub(connector, parts)) == SubParams(parts)
  {
    SubTextEmpty(connector, parts);
  }

  /** A WHERE of a single child: `WHERE ` around the child's text, the
      child's parameters, and clean exactly when the child is. */
  lemma WhereOne(combinator: Combinator, c: Clause)
    ensures Render(Where(combinator, [c])) == WhereText(Render(c))
    ensures Params(Where(combinator, [c])) == Params(c)
    ensures Clean(Where(combinator, [c])) <==> Clean(c)
  {
    SubTextOne(Token(combinator), c);
    SubParamsOne(c);
    assert AllClean([c]) <==> Clean(c);
  }

  /** A bare subexpression of two children: their texts glued with the
      connector, their parameters in order, and clean exactly when the
      connector and both children are. */
  lemma SubPairRendering(connector: string, a: Clause, b: Clause)
    ensures Render(Sub(connector, [a, b])) == Glue(Render(a), Render(b), connector)
    ensures Params(Sub(connector, [a, b])) == Params(a) + Params(b)
    ensures Clean(Sub(connector, [a, b])) <==> Strings.CountQ(connector) == 0 && Clean(a) && Clean(b)
  {
    var s := Sub(connector, [a, b]);
    assert Render(s) == SubText(connector, [a, b]);
    assert Params(s) == SubParams([a, b]);
    assert Clean(s) == (Strings.CountQ(connector) == 0 && AllClean([a, b]));
    SubTextOne(connector, a);
    assert [a] + [b] == [a, b];
    SubTextSnoc(connector, [a], b);
    SubParamsPair(a, b);
    assert AllClean([a, b]) <==> Clean(a) && Clean(b) by {
      assert [a, b][0] == a && [a, b][1] == b;
    }
  }

  /** A WHERE clause vanishes exactly when all of its children do; otherwise it
      is `WHERE ` followed by the children joined with ` AND ` or ` OR `. It is
      never a bare `WHERE`, and its parameters are its children's. */
  lemma {:induction false} WhereRendering(combinator: Combinator, parts: seq<Clause>)
    ensures var r := Render(Where(combinator, parts));
      && (r == "" <==> forall i :: 0 <= i < |parts| ==> Render(parts[i]) == "")
      && (r != "" ==> Strings.StartsWith(r, "WHERE ") && r[6..] == SubText(Token(combinator), parts))
    ensures Params(Where(combinator, parts)) == SubParams(parts)
  {
    SubTextEmpty(Token(combinator), parts);
  }

  /** A conditions group vanishes exactly when all of its children do, and is
      never `()`; otherwise it is the joined children in parentheses. */
  lemma {:induction false} ConditionsRendering(combinator: Combinator, parts: seq<Clause>)
    ensures var r := Render(Conditions(combinator, parts));
      && (r == "" <==> forall i :: 0 <= i < |parts| ==> Render(parts[i]) == "")
      && r != "()"
      && (r != "" ==> r == ParenText(SubText(Token(combinator), parts)))
    ensures Params(Conditions(combinator, parts)) == SubParams(parts)
  {
    SubTextEmpty(Token(combinator), parts);
  }

  /** Vanishing propagates upward: a WHERE whose only child is a conditions
      group of vanishing children renders nothing and has no parameters. */
  lemma NestedVanish(outer: Combinator, inner: Combinator, parts: seq<Clause>)
    requires forall i :: 0 <= i < |parts| ==> Render(parts[i]) == ""
    ensures Render(Where(outer, [Conditions(inner, parts)])) == ""
    ensures Params(Where(outer, [Conditions(inner, parts)])) == []
  {
    ConditionsRendering(inner, parts);
    WhereRendering(outer, [Conditions(inner, parts)]);
    VanishedHasNoParams(Where(outer, [Conditions(inner, parts)]));
  }

  /** NOT vanishes with its operand and otherwise prefixes it; a subquery
      never vanishes, even around an empty operand. Both pass the operand's
      parameters through. */
  lemma WrapperRendering(inner: Clause)
    ensures Render(Not(inner)) == "" <==> Render(inner) == ""
    ensures Render(inner) != "" ==> Strings.StartsWith(Render(Not(inner)), "NOT ") && Render(Not(inner))[4..] == Render(inner)
    ensures Render(Subquery(inner)) == ParenText(Render(inner)) != ""
    ensures Params(Not(inner)) == Params(inner) && Params(Subquery(inner)) == Params(inner)
  {
  }

  /** Raw text is printed as it is and binds nothing, so it vanishes
      exactly when it is empty. */
  lemma RawRendering(text: string)
    ensures Render(Raw(text)) == text && Params(Raw(text)) == []
    ensures Render(Raw(text)) == "" <==> text == ""
  {
  }

  /** An equals clause prints and binds what a compare clause with `Equal`
      does: one parameter, its value. */
  lemma EqualsIsCompare(column: string, value: Value)
    ensures Render(Equals(column, value)) == Render(Compare(Equal, column, value))
    ensures Params(Equals(column, value)) == Params(Compare(Equal, column, value)) == [value]
  {
  }

  /** SELECT, JOIN, INSERT, GROUP BY and ORDER BY bind nothing and never
      vanish, so a parent always keeps them. */
  lemma FixedLeaves(c: Clause)
    requires c.Select? || c.Join? || c.Insert? || c.Group? || c.Order?
    ensures Params(c) == [] && Render(c) != ""
  {
  }

  /** A clause that renders nothing binds nothing: a vanished clause never
      leaks parameters into its parent. */
  lemma {:induction false} VanishedHasNoParams(c: Clause)
    ensures Render(c) == "" ==> Params(c) == []
    decreases c, 1
  {
    match c
    case Not(inner) => VanishedHasNoParams(inner);
    case Where(combinator, parts) =>
      SubTextEmpty(Token(combinator), parts);
      VanishedPartsHaveNoParams(parts);
    case Conditions(combinator, parts) =>
      SubTextEmpty(Token(combinator), parts);
      VanishedPartsHaveNoParams(parts);
    case Sub(connector, parts) =>
      SubTextEmpty(connector, parts);
      VanishedPartsHaveNoParams(parts);
    case _ =>
  }

  lemma {:induction false} VanishedPartsHaveNoParams(parts: seq<Clause>)
    ensures (forall i :: 0 <= i < |parts| ==> Render(parts[i]) == "") ==> SubParams(parts) == []
    decreases parts, 0
  {
    if |parts| > 0 {
      VanishedHasNoParams(parts[0]);
      VanishedPartsHaveNoParams(parts[1..]);
      if forall i :: 0 <= i < |parts| ==> Render(parts[i]) == "" {
        assert forall i :: 0 <= i < |parts[1..]| ==> Render(parts[1..][i]) == Render(parts[i + 1]);
      }
    }
  }

  /** No caller-supplied column, table, row or raw text holds a `?`: the only
      markers in a clean tree are the ones the clauses emit themselves. */
  predicate Clean(c: Clause)
    decreases c, 1
  {
    match c
    case Select(table, rows) => Strings.CountQ(table) == 0 && Strings.TotalQ(rows) == 0
    case Join(table) => Strings.CountQ(table) == 0
    case Insert(table) => Strings.CountQ(table) == 0
    case Group(column) => Strings.CountQ(column) == 0
    case Raw(text) => Strings.CountQ(text) == 0
    case Compare(_, column, _) => Strings.CountQ(column) == 0
    case Equals(column, _) => Strings.CountQ(column) == 0
    case TextSearch(column, _) => Strings.CountQ(column) == 0
    case In(column, _) => Strings.CountQ(column) == 0
    case Order(_, columns) => Strings.TotalQ(columns) == 0
    case Page(_, _) => true
    case Not(inner) => Clean(inner)
    case Subquery(inner) => Clean(inner)
    case Where(_, parts) => AllClean(parts)
    case Conditions(_, parts) => AllClean(parts)
    case Sub(connector, parts) => Strings.CountQ(connector) == 0 && AllClean(parts)
  }

  predicate AllClean(parts: seq<Clause>)
    decreases parts, 0
  {
    forall i :: 0 <= i < |parts| ==> Clean(parts[i])
  }

  /** The central invariant: in a clean tree, the rendering holds exactly one
      marker per parameter, for every leaf and, summed over the children, for
      every group. */
  lemma {:induction false} MarkerCount(c: Clause)
    requires Clean(c)
    ensures Strings.CountQ(Render(c)) == |Params(c)|
    decreases c, 1
  {
    match c
    case Not(inner) => MarkerCount(inner);
    case Subquery(inner) => MarkerCount(inner);
    case Where(combinator, parts) =>
      SubTextCount(Token(combinator), parts);
      PartsMarkerCount(parts);
    case Conditions(combinator, parts) =>
      SubTextCount(Token(combinator), parts);
      PartsMarkerCount(parts);
    case Sub(connector, parts) =>
      SubTextCount(connector, parts);
      PartsMarkerCount(parts);
    case _ =>
  }

  lemma {:induction false} PartsMarkerCount(parts: seq<Clause>)
    requires AllClean(parts)
    ensures Strings.TotalQ(Renders(parts)) == |SubParams(parts)|
    decreases parts, 0
  {
    if |parts| > 0 {
      MarkerCount(parts[0]);
      assert AllClean(parts[1..]) by {
        assert forall i :: 0 <= i < |parts[1..]| ==> parts[1..][i] == parts[i + 1];
      }
      PartsMarkerCount(parts[1..]);
      assert Renders(parts)[1..] == Renders(parts[1..]);
    }
  }
}
