/**
 The three closed enumerations of the clause builder and their text tables.
 Go indexes a slice with the enumeration value; with a closed datatype an
 out-of-range value cannot arise.
 */
module Enums {
  import opened Wrappers
  import Strings

  /** Operators of a compare clause. */
  datatype Comparator = Equal | Greater | Lesser | GreaterEqual | LesserEqual

  /** The operator table, indexed by comparator. The table maps
      `LesserEqual` to `<=`; the comment above that constant says `>=`. */
  function OperatorText(op: Comparator): (r: string)
    ensures 1 <= |r| <= 2 && Strings.CountQ(r) == 0
    ensures ParseOperator(r) == Some(op)
  {
    match op
    case Equal => "="
    case Greater => ">"
    case Lesser => "<"
    case GreaterEqual => ">="
    case LesserEqual => "<="
  }

  /** Reads an operator back; the table is one-to-one. */
  function ParseOperator(s: string): Option<Comparator>
  {
    if s == "=" then Some(Equal)
    else if s == ">" then Some(Greater)
    else if s == "<" then Some(Lesser)
    else if s == ">=" then Some(GreaterEqual)
    else if s == "<=" then Some(LesserEqual)
    else None
  }

  /** How the children of a WHERE or conditions group are combined. */
  datatype Combinator = And | Or

  /** The bare keyword, as the older where clause's table holds it. */
  function Keyword(c: Combinator): (r: string)
    ensures ParseKeyword(r) == Some(c)
  {
    match c
    case And => "AND"
    case Or => "OR"
  }

  function ParseKeyword(s: string): Option<Combinator>
  {
    if s == "AND" then Some(And) else if s == "OR" then Some(Or) else None
  }

  /** The connector token of the newer where and conditions clauses: the
      keyword with one space on each side, and no marker. */
  function Token(c: Combinator): (r: string)
    ensures r == " " + Keyword(c) + " "
    ensures Strings.CountQ(r) == 0
  {
    match c
    case And => " AND "
    case Or => " OR "
  }

  /** Sort direction of an ORDER BY clause. */
  datatype Ordering = Ascending | Descending

  function DirectionText(o: Ordering): (r: string)
    ensures |r| > 0 && Strings.CountQ(r) == 0
    ensures ParseDirection(r) == Some(o)
  {
    match o
    case Ascending => "ASC"
    case Descending => "DESC"
  }

  function ParseDirection(s: string): Option<Ordering>
  {
    if s == "ASC" then Some(Ascending) else if s == "DESC" then Some(Descending) else None
  }
}
