/**
 Text helpers the clause builder is made of: counting `?` markers, Go's
 `strings.Join` and `strings.Repeat`, filtering out empty renderings, and the
 decimal rendering that `fmt.Sprintf("%d", n)` performs for a positive index.
 */
module Strings {

  /** Number of `?` placeholder markers in `s`. */
  function CountQ(s: string): nat
  {
    if |s| == 0 then 0 else (if s[0] == '?' then 1 else 0) + CountQ(s[1..])
  }

  /** Markers count additively over concatenation. */
  lemma {:induction false} CountQAppend(a: string, b: string)
    ensures CountQ(a + b) == CountQ(a) + CountQ(b)
  {
    if |a| == 0 {
      assert a + b == b;
    } else {
      assert (a + b)[1..] == a[1..] + b;
      CountQAppend(a[1..], b);
    }
  }

  /** The single space that joins the root query's clauses holds no marker. */
  lemma SpaceHasNoMarker()
    ensures CountQ(" ") == 0
  {
  }

  /** A non-empty prefix splits into its head and the rest of the text. */
  lemma HeadSplit(a: string, x: string)
    requires |a| > 0
    ensures a + x == [a[0]] + (a[1..] + x)
  {
    assert a == [a[0]] + a[1..];
  }

  lemma Assoc3(a: string, b: string, c: string)
    ensures a + b + c == a + (b + c)
  {
  }

  lemma Assoc4(a: string, b: string, c: string, d: string)
    ensures a + b + c + d == a + (b + c + d)
  {
  }

  lemma AssocRight4(a: string, b: string, c: string, d: string)
    ensures a + (b + (c + d)) == a + b + c + d
  {
  }

  lemma Assoc5(a: string, b: string, c: string, d: string, e: string)
    ensures a + b + c + d + e == a + (b + c + d + e)
  {
  }

  /** Total number of markers over a list of strings. */
  function TotalQ(parts: seq<string>): nat
  {
    if |parts| == 0 then 0 else CountQ(parts[0]) + TotalQ(parts[1..])
  }

  /** A string has no markers exactly when it holds no `?` character. */
  lemma {:induction false} CountQZero(s: string)
    ensures CountQ(s) == 0 <==> forall i :: 0 <= i < |s| ==> s[i] != '?'
  {
    if |s| > 0 {
      CountQZero(s[1..]);
      assert forall i :: 1 <= i < |s| ==> s[i] == s[1..][i - 1];
    }
  }

  lemma {:induction false} TotalQAppend(a: seq<string>, b: seq<string>)
    ensures TotalQ(a + b) == TotalQ(a) + TotalQ(b)
  {
    if |a| == 0 {
      assert a + b == b;
    } else {
      assert (a + b)[1..] == a[1..] + b;
      TotalQAppend(a[1..], b);
    }
  }

  /** `p` is a prefix of `s`. */
  predicate StartsWith(s: string, p: string)
  {
    |p| <= |s| && s[..|p|] == p
  }

  /** `p` is a suffix of `s`. */
  predicate EndsWith(s: string, p: string)
  {
    |p| <= |s| && s[|s| - |p|..] == p
  }

  /** Prefix, suffix and marker count of a four-piece concatenation. */
  lemma ConcatFacts(a: string, b: string, c: string, d: string)
    ensures StartsWith(a + b + c + d, a) && EndsWith(a + b + c + d, c + d)
    ensures CountQ(a + b + c + d) == CountQ(a) + CountQ(b) + CountQ(c) + CountQ(d)
    ensures |a + b + c + d| == |a| + |b| + |c + d|
    ensures (a + b + c + d)[|a|..|a| + |b|] == b
  {
    assert a + b + c + d == a + (b + c + d);
    assert a + b + c + d == (a + b) + (c + d);
    CountQAppend(a + b + c, d);
    CountQAppend(a + b, c);
    CountQAppend(a, b);
  }

  /** Go's `strings.Join`: the parts separated by `sep`, nothing before the
      first or after the last. */
  function Join(parts: seq<string>, sep: string): string
  {
    if |parts| == 0 then ""
    else if |parts| == 1 then parts[0]
    else parts[0] + sep + Join(parts[1..], sep)
  }

  /** Joining one more part adds exactly one separator, between the old text
      and the new part. */
  lemma {:induction false} JoinSnoc(parts: seq<string>, x: string, sep: string)
    ensures Join(parts + [x], sep) == if |parts| == 0 then x else Join(parts, sep) + sep + x
  {
    if |parts| == 0 {
      assert parts + [x] == [x];
    } else if |parts| == 1 {
      assert parts + [x] == [parts[0], x];
      assert [parts[0], x][1..] == [x];
    } else {
      assert (parts + [x])[1..] == parts[1..] + [x];
      JoinSnoc(parts[1..], x, sep);
    }
  }

  /** With a marker-free separator, the join carries exactly the parts' markers. */
  lemma {:induction false} JoinCount(parts: seq<string>, sep: string)
    requires CountQ(sep) == 0
    ensures CountQ(Join(parts, sep)) == TotalQ(parts)
  {
    if |parts| == 1 {
      assert parts[1..] == [];
    } else if |parts| > 1 {
      JoinCount(parts[1..], sep);
      CountQAppend(parts[0], sep);
      CountQAppend(parts[0] + sep, Join(parts[1..], sep));
    }
  }

  /** A join of non-empty parts is empty exactly when there are no parts. */
  lemma JoinEmpty(parts: seq<string>, sep: string)
    requires forall i :: 0 <= i < |parts| ==> parts[i] != ""
    ensures Join(parts, sep) == "" <==> |parts| == 0
  {
    if |parts| > 1 {
      assert |Join(parts, sep)| >= |parts[0]| > 0;
    }
  }

  /** The parts that are not the empty string, in their original order. */
  function NonEmpty(parts: seq<string>): (r: seq<string>)
    ensures |r| <= |parts|
    ensures forall i :: 0 <= i < |r| ==> r[i] != ""
  {
    if |parts| == 0 then []
    else (if parts[0] == "" then [] else [parts[0]]) + NonEmpty(parts[1..])
  }

  /** When no part is empty the filter keeps every part. */
  lemma {:induction false} NonEmptyKeepsAll(parts: seq<string>)
    requires forall i :: 0 <= i < |parts| ==> parts[i] != ""
    ensures NonEmpty(parts) == parts
  {
    if |parts| > 0 {
      NonEmptyKeepsAll(parts[1..]);
      assert [parts[0]] + parts[1..] == parts;
    }
  }

  /** Nothing survives the filter exactly when every part is empty. */
  lemma {:induction false} NonEmptyNil(parts: seq<string>)
    ensures NonEmpty(parts) == [] <==> forall i :: 0 <= i < |parts| ==> parts[i] == ""
  {
    if |parts| > 0 {
      NonEmptyNil(parts[1..]);
      assert forall i :: 1 <= i < |parts| ==> parts[i] == parts[1..][i - 1];
    }
  }

  lemma {:induction false} NonEmptySnoc(parts: seq<string>, x: string)
    ensures NonEmpty(parts + [x]) == NonEmpty(parts) + (if x == "" then [] else [x])
  {
    if |parts| == 0 {
      assert parts + [x] == [x];
      assert [x][1..] == [];
    } else {
      assert (parts + [x])[1..] == parts[1..] + [x];
      NonEmptySnoc(parts[1..], x);
    }
  }

  /** Dropping empty strings drops no markers. */
  lemma {:induction false} NonEmptyCount(parts: seq<string>)
    ensures TotalQ(NonEmpty(parts)) == TotalQ(parts)
  {
    if |parts| > 0 {
      NonEmptyCount(parts[1..]);
      var head := if parts[0] == "" then [] else [parts[0]];
      TotalQAppend(head, NonEmpty(parts[1..]));
      if head != [] {
        assert head[1..] == [];
      }
    }
  }

  /** Go's `strings.Repeat`. */
  function Repeat(s: string, n: nat): (r: string)
    ensures |r| == n * |s|
  {
    if n == 0 then "" else s + Repeat(s, n - 1)
  }

  /** The character of one decimal digit. */
  function DigitChar(d: nat): (c: char)
    requires d < 10
    ensures '0' <= c <= '9'
  {
    (48 + d) as char
  }

  predicate IsDigits(s: string)
  {
    forall i :: 0 <= i < |s| ==> '0' <= s[i] <= '9'
  }

  /** The number a string of decimal digits denotes. */
  function DecimalValue(s: string): nat
    requires IsDigits(s)
  {
    if |s| == 0 then 0
    else 10 * DecimalValue(s[..|s| - 1]) + (s[|s| - 1] as int - 48)
  }

  /** What `%d` prints for a non-negative integer: its decimal digits, with no
      leading zero, reading back as the same number. */
  function Digits(n: nat): (r: string)
    ensures |r| > 0 && IsDigits(r)
    ensures r[0] != '0' || n == 0
    ensures DecimalValue(r) == n
  {
    if n < 10 then [DigitChar(n)]
    else
      var r := Digits(n / 10) + [DigitChar(n % 10)];
      assert r[..|r| - 1] == Digits(n / 10);
      r
  }

  /** A string of digits holds no marker. */
  lemma DigitsHaveNoMarkers(s: string)
    requires IsDigits(s)
    ensures CountQ(s) == 0
  {
    CountQZero(s);
  }
}
