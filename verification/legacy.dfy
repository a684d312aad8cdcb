/**
 The older revision of the builder: its root query, its WHERE clause and its
 text search. Three things set it apart from the newer revision.
 - `AddClause` appends whatever it is given, nil included. A nil child makes
   the first `String` or `Parameters` call on it fail, which is modelled as
   `None`.
 - The WHERE clause filters and joins its children inline.
 - The text search renders its ILIKE fragment and binds its term even when
   the term is empty.
 Clauses whose implementation the two revisions share are embedded as
 clauses of the newer revision.
 */
module Legacy {
  import opened Wrappers
  import opened Strings
  import opened Enums
  import opened Leaves
  import Clauses
  import opened Renumber
  import Queries

  /** A child as the older revision holds it; `Nil` is Go's nil interface
      value, which its `AddClause` accepts. */
  datatype Node =
    | Nil
    | Shared(clause: Clauses.Clause)
    | Search(column: string, term: string)
    | Where(combinator: Combinator, parts: seq<Node>)

  datatype Query = Query(parts: seq<Node>)

  /** The joined text of a legacy WHERE clause from its children's texts:
      nothing when none is non-empty, else `WHERE ` and the non-empty ones
      joined with ` AND ` or ` OR `. */
  function WhereJoin(combinator: Combinator, texts: seq<string>): (r: string)
    ensures r == "" <==> forall i :: 0 <= i < |texts| ==> texts[i] == ""
    ensures r != "" ==> StartsWith(r, "WHERE ") && r[6..] == Join(NonEmpty(texts), " " + Keyword(combinator) + " ")
    ensures CountQ(r) == TotalQ(texts)
  {
    var survivors := NonEmpty(texts);
    var connector := " " + Keyword(combinator) + " ";
    assert connector == Token(combinator);
    NonEmptyNil(texts);
    NonEmptyCount(texts);
    JoinCount(survivors, connector);
    WhereTextLiterals();
    CountQAppend("WHERE ", Join(survivors, connector));
    if |survivors| < 1 then "" else "WHERE " + Join(survivors, connector)
  }

  /** A node's text, or `None` when a nil child is reached. */
  function Render(n: Node): Option<string>
    decreases n, 2
  {
    match n
    case Nil => None
    case Shared(c) => Some(Clauses.Render(c))
    case Search(column, _) => Some(SearchText(column))
    case Where(combinator, parts) =>
      var texts := Texts(parts);
      if texts.None? then None else Some(WhereJoin(combinator, texts.value))
  }

  /** Every child's text, in order, or `None` when some child is nil. */
  function Texts(parts: seq<Node>): (r: Option<seq<string>>)
    decreases parts, 1
    ensures r.Some? ==> |r.value| == |parts|
  {
    if |parts| == 0 then Some([])
    else
      var head := Render(parts[0]);
      var rest := Texts(parts[1..]);
      if head.None? || rest.None? then None else Some([head.value] + rest.value)
  }

  /** A node's parameters, or `None` when a nil child is reached. The text
      search binds its term whatever the term is. */
  function Params(n: Node): Option<seq<Value>>
    decreases n, 1
  {
    match n
    case Nil => None
    case Shared(c) => Some(Clauses.Params(c))
    case Search(_, term) => Some([Text(term)])
    case Where(_, parts) => SubParams(parts)
  }

  /** Every child's parameters, concatenated in child order. */
  function SubParams(parts: seq<Node>): Option<seq<Value>>
    decreases parts, 0
  {
    if |parts| == 0 then Some([])
    else
      var head := Params(parts[0]);
      var rest := SubParams(parts[1..]);
      if head.None? || rest.None? then None else Some(head.value + rest.value)
  }

  /** No nil child anywhere in the tree. */
  predicate Present(n: Node)
    decreases n, 1
  {
    match n
    case Nil => false
    case Where(_, parts) => AllPresent(parts)
    case _ => true
  }

  predicate AllPresent(parts: seq<Node>)
    decreases parts, 0
  {
    forall i :: 0 <= i < |parts| ==> Present(parts[i])
  }

  /** Rendering and parameter collection succeed exactly on trees without a
      nil child. */
  lemma {:induction false} Defined(n: Node)
    ensures Render(n).Some? <==> Present(n)
    ensures Params(n).Some? <==> Present(n)
    decreases n, 1
  {
    match n
    case Where(_, parts) => PartsDefined(parts);
    case _ =>
  }

  lemma {:induction false} PartsDefined(parts: seq<Node>)
    ensures Texts(parts).Some? <==> AllPresent(parts)
    ensures SubParams(parts).Some? <==> AllPresent(parts)
    decreases parts, 0
  {
    if |parts| > 0 {
      PartsDefined(parts[1..]);
      assert forall i :: 1 <= i < |parts| ==> parts[i] == parts[1..][i - 1];
      Defined(parts[0]);
    }
  }

  /** `NewWhereClause` of the older revision. */
  function NewWhere(combinator: Combinator): (r: Node)
    ensures r.Where? && Render(r) == Some("") && Params(r) == Some([])
  {
    Where(combinator, [])
  }

  /** `AddClause` of the older WHERE clause: the child is appended whatever
      it is, so a nil child makes the clause unusable. */
  function AddClause(w: Node, child: Node): (r: Node)
    requires w.Where?
    ensures r.Where? && r.combinator == w.combinator && r.parts == w.parts + [child]
    ensures child.Nil? ==> Render(r) == None && Params(r) == None
  {
    var r := Where(w.combinator, w.parts + [child]);
    assert r.parts[|w.parts|] == child;
    PartsDefined(r.parts);
    Defined(r);
    r
  }

  /** The older root query's text before numbering. */
  function Joined(q: Query): Option<string>
  {
    var texts := Texts(q.parts);
    if texts.None? then None else Some(Join(NonEmpty(texts.value), " "))
  }

  /** `String` of the older root query: the non-empty child texts joined with
      one space, then the k-th marker renumbered `$k` for each parameter. */
  function Sql(q: Query): (r: Option<string>)
    ensures r.Some? <==> AllPresent(q.parts)
  {
    PartsDefined(q.parts);
    var text := Joined(q);
    var params := SubParams(q.parts);
    if text.None? || params.None? then None
    else Some(Number(text.value, 1, |params.value|))
  }

  /** `NewQuery` of the older revision. */
  function NewQuery(): (q: Query)
    ensures Sql(q) == Some("") && SubParams(q.parts) == Some([])
  {
    Query([])
  }

  /** `AddClause` of the older root query: appended whatever it is. */
  function AddQueryClause(q: Query, child: Node): (r: Query)
    ensures r.parts == q.parts + [child]
    ensures child.Nil? ==> Sql(r) == None
    ensures Sql(r).Some? <==> Sql(q).Some? && Present(child)
  {
    var r := Query(q.parts + [child]);
    PartsDefined(q.parts);
    PartsDefined(r.parts);
    assert forall i :: 0 <= i < |q.parts| ==> r.parts[i] == q.parts[i];
    assert r.parts[|q.parts|] == child;
    r
  }

  /** No `?` in any caller-supplied text, and no nil child. */
  predicate Clean(n: Node)
    decreases n, 1
  {
    match n
    case Nil => false
    case Shared(c) => Clauses.Clean(c)
    case Search(column, _) => CountQ(column) == 0
    case Where(_, parts) => AllClean(parts)
  }

  predicate AllClean(parts: seq<Node>)
    decreases parts, 0
  {
    forall i :: 0 <= i < |parts| ==> Clean(parts[i])
  }

  /** The older revision keeps the marker invariant too: a clean tree renders
      one marker per parameter. */
  lemma {:induction false} MarkerCount(n: Node)
    requires Clean(n)
    ensures Render(n).Some? && Params(n).Some?
    ensures CountQ(Render(n).value) == |Params(n).value|
    decreases n, 1
  {
    match n
    case Shared(c) => Clauses.MarkerCount(c);
    case Search(column, _) =>
    case Where(_, parts) => PartsMarkerCount(parts);
  }

  lemma {:induction false} PartsMarkerCount(parts: seq<Node>)
    requires AllClean(parts)
    ensures Texts(parts).Some? && SubParams(parts).Some?
    ensures TotalQ(Texts(parts).value) == |SubParams(parts).value|
    decreases parts, 0
  {
    if |parts| > 0 {
      MarkerCount(parts[0]);
      assert AllClean(parts[1..]) by {
        assert forall i :: 0 <= i < |parts[1..]| ==> parts[1..][i] == parts[i + 1];
      }
      PartsMarkerCount(parts[1..]);
      assert Texts(parts).value[1..] == Texts(parts[1..]).value;
    }
  }

  /** For a clean query every marker is numbered: no `?` is left and the
      k-th marker became `$k`. */
  lemma SqlNumbersAll(q: Query)
    requires AllClean(q.parts)
    ensures Sql(q).Some? && CountQ(Sql(q).value) == 0
    ensures Sql(q).value == Interleave(Segments(Joined(q).value), 1)
  {
    PartsMarkerCount(q.parts);
    var texts := Texts(q.parts).value;
    NonEmptyCount(texts);
    SpaceHasNoMarker();
    JoinCount(NonEmpty(texts), " ");
    var text := Joined(q).value;
    NumberCount(text, 1, |SubParams(q.parts).value|);
    NumberAligned(text, 1);
  }

  /** The clause tree the newer revision builds from the same `AddClause`
      calls: nil children are dropped, the text search becomes the newer text
      search. */
  function ToModern(n: Node): Clauses.Clause
    decreases n, 1
  {
    match n
    case Nil => Clauses.Raw("")
    case Shared(c) => c
    case Search(column, term) => Clauses.TextSearch(column, term)
    case Where(combinator, parts) => Clauses.Where(combinator, ToModernParts(parts))
  }

  function ToModernParts(parts: seq<Node>): seq<Clauses.Clause>
    decreases parts, 0
  {
    if |parts| == 0 then []
    else (if parts[0].Nil? then [] else [ToModern(parts[0])]) + ToModernParts(parts[1..])
  }

  /** Present, and every text search has a non-empty term: the trees on which
      the two revisions are meant to agree. */
  predicate Comparable(n: Node)
    decreases n, 1
  {
    match n
    case Nil => false
    case Shared(_) => true
    case Search(_, term) => term != ""
    case Where(_, parts) => AllComparable(parts)
  }

  predicate AllComparable(parts: seq<Node>)
    decreases parts, 0
  {
    forall i :: 0 <= i < |parts| ==> Comparable(parts[i])
  }

  /** On comparable trees the older revision renders the same text and binds
      the same parameters as the newer one. */
  lemma {:induction false} Agreement(n: Node)
    requires Comparable(n)
    ensures Render(n) == Some(Clauses.Render(ToModern(n)))
    ensures Params(n) == Some(Clauses.Params(ToModern(n)))
    decreases n, 1
  {
    match n
    case Shared(_) =>
    case Search(column, term) =>
      assert TextSearchParams(term) == [Text(term)];
    case Where(combinator, parts) =>
      PartsAgreement(parts);
      var m := ToModernParts(parts);
      assert ToModern(n) == Clauses.Where(combinator, m);
      assert Params(n) == SubParams(parts);
      assert Clauses.Params(ToModern(n)) == Clauses.SubParams(m);
      assert Render(n) == Some(WhereJoin(combinator, Clauses.Renders(m)));
      WhereAgrees(combinator, Clauses.Renders(m));
      assert Clauses.Render(ToModern(n)) == WhereText(Join(NonEmpty(Clauses.Renders(m)), Token(combinator)));
  }

  /** The older WHERE text is the newer one: `WHERE ` and the joined
      survivors, or nothing when none survived. */
  lemma {:induction false} WhereAgrees(combinator: Combinator, texts: seq<string>)
    ensures WhereJoin(combinator, texts) == WhereText(Join(NonEmpty(texts), Token(combinator)))
  {
    JoinEmpty(NonEmpty(texts), Token(combinator));
  }

  lemma {:induction false} PartsAgreement(parts: seq<Node>)
    requires AllComparable(parts)
    ensures Texts(parts) == Some(Clauses.Renders(ToModernParts(parts)))
    ensures SubParams(parts) == Some(Clauses.SubParams(ToModernParts(parts)))
    decreases parts, 0
  {
    if |parts| > 0 {
      Agreement(parts[0]);
      assert AllComparable(parts[1..]) by {
        assert forall i :: 0 <= i < |parts[1..]| ==> parts[1..][i] == parts[i + 1];
      }
      PartsAgreement(parts[1..]);
      var m := ToModernParts(parts);
      assert m[0] == ToModern(parts[0]) && m[1..] == ToModernParts(parts[1..]);
    }
  }

  /** Hence the older root query prints the same SQL as the newer one. */
  lemma QueryAgreement(q: Query)
    requires AllComparable(q.parts)
    ensures Sql(q) == Some(Queries.Sql(Queries.Query(ToModernParts(q.parts))))
  {
    PartsAgreement(q.parts);
  }

  /** The older text search never vanishes and always binds its term, even
      when the term is empty. */
  lemma SearchNeverVanishes(column: string, term: string)
    ensures Render(Search(column, term)) == Some(SearchText(column))
    ensures Render(Search(column, term)).value != ""
    ensures Params(Search(column, term)) == Some([Text(term)])
  {
  }
}
