/**
 The leaf clauses: each renders a fragment of SQL text holding `?` markers,
 and some of them carry bind parameters. The text of every leaf is stated
 here with the number of markers it holds, in terms of the caller-supplied
 column, table and row names, and with the condition under which it vanishes.
 */
module Leaves {
  import opened Strings
  import opened Enums

  /** A bind parameter. The source passes `interface{}` values and never
      inspects them; integers and strings are the ones the builder itself
      creates, anything else a caller passes is an opaque key. */
  datatype Value = Int(i: int) | Text(s: string) | Other(key: nat)

  /** `SELECT rows FROM table`: never empty, always starts with `SELECT `,
      and the rows, joined by `, `, sit between `SELECT ` and ` FROM `. */
  function SelectText(table: string, rows: seq<string>): (r: string)
    ensures StartsWith(r, "SELECT ") && |r| > 7
    ensures EndsWith(r, " FROM " + table)
    ensures |r| == 7 + |Join(rows, ", ")| + |" FROM " + table|
    ensures r[7..|r| - |" FROM " + table|] == Join(rows, ", ")
    ensures CountQ(r) == TotalQ(rows) + CountQ(table)
  {
    SelectTextLiterals();
    var cols := Join(rows, ", ");
    JoinCount(rows, ", ");
    ConcatFacts("SELECT ", cols, " FROM ", table);
    "SELECT " + cols + " FROM " + table
  }

  lemma SelectTextLiterals()
    ensures CountQ("SELECT ") == 0 && CountQ(" FROM ") == 0 && CountQ(", ") == 0
  {
  }

  /** `JOIN t ON t_id=t.id`: never empty, the table name follows `JOIN `,
      and the table name is its only source of markers (it appears three
      times). `JoinSuffix` gives the rest of the text. */
  function JoinText(table: string): (r: string)
    ensures StartsWith(r, "JOIN ") && |r| > 5
    ensures |r| == 5 + |table| + |" ON " + table + "_id=" + table + ".id"|
    ensures r[5..5 + |table|] == table
    ensures CountQ(r) == 3 * CountQ(table)
  {
    JoinTextLiterals();
    ConcatFacts("JOIN ", table, " ON " + table + "_id=" + table, ".id");
    Assoc5("JOIN ", table, " ON " + table, "_id=" + table, ".id");
    CountQAppend("JOIN " + table + " ON " + table + "_id=" + table, ".id");
    CountQAppend("JOIN " + table + " ON " + table + "_id=", table);
    CountQAppend("JOIN " + table + " ON " + table, "_id=");
    CountQAppend("JOIN " + table + " ON ", table);
    CountQAppend("JOIN " + table, " ON ");
    CountQAppend("JOIN ", table);
    "JOIN " + table + " ON " + table + "_id=" + table + ".id"
  }

  /** The join condition: a JOIN ends by matching the foreign key
      `t_id` with the key `t.id` of the joined table `t`. */
  lemma JoinSuffix(table: string)
    ensures EndsWith(JoinText(table), " ON " + table + "_id=" + table + ".id")
  {
    Assoc5("JOIN ", table, " ON " + table, "_id=" + table, ".id");
    assert JoinText(table) == ("JOIN " + table) + (" ON " + table + "_id=" + table + ".id");
  }

  lemma JoinTextLiterals()
    ensures CountQ("JOIN ") == 0 && CountQ(" ON ") == 0 && CountQ("_id=") == 0 && CountQ(".id") == 0
  {
  }

  /** `INSERT INTO table`. */
  function InsertText(table: string): (r: string)
    ensures StartsWith(r, "INSERT INTO ") && r[12..] == table
    ensures CountQ(r) == CountQ(table)
  {
    InsertTextLiterals();
    CountQAppend("INSERT INTO ", table);
    "INSERT INTO " + table
  }

  lemma InsertTextLiterals()
    ensures CountQ("INSERT INTO ") == 0
  {
  }

  /** `GROUP BY column`. */
  function GroupText(column: string): (r: string)
    ensures StartsWith(r, "GROUP BY ") && r[9..] == column
    ensures CountQ(r) == CountQ(column)
  {
    GroupTextLiterals();
    CountQAppend("GROUP BY ", column);
    "GROUP BY " + column
  }

  lemma GroupTextLiterals()
    ensures CountQ("GROUP BY ") == 0
  {
  }

  /** `column op ?`: exactly one marker besides any in the column name, and
      never empty. */
  function CompareText(op: Comparator, column: string): (r: string)
    ensures StartsWith(r, column) && EndsWith(r, " ?") && |r| >= |column| + 2
    ensures CountQ(r) == CountQ(column) + 1
  {
    CompareTextLiterals();
    var opText := OperatorText(op);
    ConcatFacts(column, " ", opText, " ?");
    column + " " + opText + " ?"
  }

  lemma CompareTextLiterals()
    ensures CountQ(" ") == 0 && CountQ(" ?") == 1
  {
  }

  /** `column = ?`: the same text as a compare clause with `Equal`. */
  function EqualsText(column: string): (r: string)
    ensures r == CompareText(Equal, column)
    ensures CountQ(r) == CountQ(column) + 1
  {
    EqualsTextLiterals();
    CountQAppend(column, " = ?");
    column + " = ?"
  }

  lemma EqualsTextLiterals()
    ensures CountQ(" = ?") == 1
  {
  }

  /** The ILIKE fragment `column ILIKE '%' || ? || '%'`: one marker besides
      any in the column name. Both revisions of the text search share it. */
  function SearchText(column: string): (r: string)
    ensures StartsWith(r, column) && |r| > |column|
    ensures CountQ(r) == CountQ(column) + 1
  {
    SearchTextPieces();
    ConcatFacts(column, " ILIKE '%' || ", "?", " || '%'");
    column + " ILIKE '%' || " + "?" + " || '%'"
  }

  lemma SearchTextPieces()
    ensures CountQ(" ILIKE '%' || ") == 0 && CountQ("?") == 1 && CountQ(" || '%'") == 0
  {
    IlikeHasNoMarker();
    PercentHasNoMarker();
  }

  lemma IlikeHasNoMarker()
    ensures CountQ(" ILIKE '%' || ") == 0
  {
  }

  lemma PercentHasNoMarker()
    ensures CountQ(" || '%'") == 0
  {
  }

  /** Parameters of the text search of the newer revision: nothing for an
      empty term, else the term. */
  function TextSearchParams(term: string): (r: seq<Value>)
    ensures r == [] <==> term == ""
    ensures r != [] ==> r == [Text(term)]
  {
    if term == "" then [] else [Text(term)]
  }

  /** The text search of the newer revision vanishes on an empty term, and
      otherwise holds exactly one marker per parameter beyond the column's. */
  function TextSearchText(column: string, term: string): (r: string)
    ensures r == "" <==> term == ""
    ensures CountQ(r) == |TextSearchParams(term)| + (if term == "" then 0 else CountQ(column))
  {
    if term == "" then "" else SearchText(column)
  }

  /** `n` copies of a single marker. */
  function Markers(n: nat): (r: seq<string>)
    ensures |r| == n && TotalQ(r) == n
  {
    if n == 0 then [] else ["?"] + Markers(n - 1)
  }

  /** The marker list of an IN clause as the source builds it: `?, `
      repeated `n` times, with the trailing `, ` sliced off. */
  function InMarkers(n: nat): (r: string)
    requires n >= 1
    ensures r == Join(Markers(n), ", ")
    ensures CountQ(r) == n
  {
    var s := Repeat("?, ", n);
    InMarkersJoin(n);
    JoinCount(Markers(n), ", ");
    s[..|s| - 2]
  }

  lemma {:induction false} InMarkersJoin(n: nat)
    requires n >= 1
    ensures Repeat("?, ", n)[..3 * n - 2] == Join(Markers(n), ", ")
  {
    if n == 1 {
      assert Repeat("?, ", 1) == "?, ";
    } else {
      InMarkersJoin(n - 1);
      var rest := Repeat("?, ", n - 1);
      assert Repeat("?, ", n)[..3 * n - 2] == "?, " + rest[..3 * (n - 1) - 2];
      assert Markers(n)[1..] == Markers(n - 1);
    }
  }

  /** `column IN (?, ..., ?)` with one marker per value; empty when there
      are no values. */
  function InText(column: string, values: seq<int>): (r: string)
    ensures r == "" <==> |values| == 0
    ensures CountQ(r) == if |values| == 0 then 0 else CountQ(column) + |values|
  {
    InTextLiterals();
    if |values| < 1 then ""
    else
      var markers := InMarkers(|values|);
      ConcatFacts(column, " IN (", markers, ")");
      column + " IN (" + markers + ")"
  }

  lemma InTextLiterals()
    ensures CountQ(" IN (") == 0 && CountQ(")") == 0
  {
  }

  /** The values of an IN clause as parameters, in their original order. */
  function InParams(values: seq<int>): (r: seq<Value>)
    ensures |r| == |values|
    ensures forall i :: 0 <= i < |values| ==> r[i] == Int(values[i])
  {
    if |values| == 0 then [] else [Int(values[0])] + InParams(values[1..])
  }

  /** `ORDER BY c1, c2 DIR`: never empty, ends with the direction keyword. */
  function OrderText(ordering: Ordering, columns: seq<string>): (r: string)
    ensures StartsWith(r, "ORDER BY ") && |r| > 9
    ensures EndsWith(r, " " + DirectionText(ordering))
    ensures |r| == 9 + |Join(columns, ", ")| + |" " + DirectionText(ordering)|
    ensures r[9..|r| - |" " + DirectionText(ordering)|] == Join(columns, ", ")
    ensures CountQ(r) == TotalQ(columns)
  {
    OrderTextLiterals();
    var cols := Join(columns, ", ");
    var dir := DirectionText(ordering);
    JoinCount(columns, ", ");
    ConcatFacts("ORDER BY ", cols, " ", dir);
    "ORDER BY " + cols + " " + dir
  }

  lemma OrderTextLiterals()
    ensures CountQ("ORDER BY ") == 0 && CountQ(", ") == 0 && CountQ(" ") == 0
  {
  }

  /** Parameters of a page clause: the limit when it is positive, then the
      offset when that is positive too. */
  function PageParams(limit: int, offset: int): (r: seq<Value>)
    ensures r == [] <==> limit <= 0
    ensures r != [] ==> r[0] == Int(limit)
    ensures |r| == 2 <==> limit > 0 && offset > 0
    ensures |r| == 2 ==> r[1] == Int(offset)
    ensures |r| <= 2
  {
    if limit > 0 then
      if offset > 0 then [Int(limit), Int(offset)] else [Int(limit)]
    else []
  }

  /** `LIMIT ?` or `LIMIT ? OFFSET ?`, with one marker per parameter, and
      nothing at all when the limit is not positive. */
  function PageText(limit: int, offset: int): (r: string)
    ensures r == "" <==> limit <= 0
    ensures limit > 0 ==> StartsWith(r, "LIMIT ?")
    ensures CountQ(r) == |PageParams(limit, offset)|
  {
    PageTextLiterals();
    PageTextStarts();
    if limit > 0 then
      if offset > 0 then "LIMIT ? OFFSET ?" else "LIMIT ?"
    else ""
  }

  lemma PageTextLiterals()
    ensures CountQ("LIMIT ?") == 1 && CountQ("LIMIT ? OFFSET ?") == 2
  {
    PageTextPieces();
    CountQAppend("LIMIT ?", " OFFSET ?");
  }

  lemma PageTextStarts()
    ensures StartsWith("LIMIT ? OFFSET ?", "LIMIT ?") && StartsWith("LIMIT ?", "LIMIT ?")
  {
    assert "LIMIT ? OFFSET ?"[..7] == "LIMIT ?";
  }

  lemma PageTextPieces()
    ensures CountQ("LIMIT ?") == 1 && CountQ(" OFFSET ?") == 1
  {
  }

  /** `NOT inner`, or nothing when the operand rendered nothing. */
  function NotText(inner: string): (r: string)
    ensures r == "" <==> inner == ""
    ensures inner != "" ==> StartsWith(r, "NOT ") && r[4..] == inner
    ensures CountQ(r) == CountQ(inner)
  {
    NotTextLiterals();
    CountQAppend("NOT ", inner);
    if |inner| == 0 then "" else "NOT " + inner
  }

  lemma NotTextLiterals()
    ensures CountQ("NOT ") == 0
  {
  }

  /** `(inner)`, even when the operand is empty. */
  function ParenText(inner: string): (r: string)
    ensures |r| == |inner| + 2 && r[0] == '(' && r[|r| - 1] == ')'
    ensures r[1..|r| - 1] == inner
    ensures CountQ(r) == CountQ(inner)
  {
    ParenTextLiterals();
    CountQAppend("(" + inner, ")");
    CountQAppend("(", inner);
    "(" + inner + ")"
  }

  lemma ParenTextLiterals()
    ensures CountQ("(") == 0 && CountQ(")") == 0
  {
  }

  /** `WHERE inner`, or nothing when no condition survived. */
  function WhereText(inner: string): (r: string)
    ensures r == "" <==> inner == ""
    ensures inner != "" ==> StartsWith(r, "WHERE ") && r[6..] == inner
    ensures CountQ(r) == CountQ(inner)
  {
    WhereTextLiterals();
    CountQAppend("WHERE ", inner);
    if inner == "" then "" else "WHERE " + inner
  }

  lemma WhereTextLiterals()
    ensures CountQ("WHERE ") == 0
  {
  }

  /** A parenthesised conditions group, or nothing when no condition
      survived; never `()`. */
  function GroupParenText(inner: string): (r: string)
    ensures r == "" <==> inner == ""
    ensures r != "()"
    ensures inner != "" ==> r == ParenText(inner)
    ensures CountQ(r) == CountQ(inner)
  {
    if |inner| < 1 then "" else ParenText(inner)
  }
}
