/**
 Placeholder renumbering. Clauses emit the neutral marker `?`; the root query
 replaces the k-th marker, counted from the left, by `$k`. The source does so
 by calling Go's `strings.Replace(text, "?", "$k", 1)` once for each k; this
 module defines that single replacement, an independent one-pass
 left-to-right numbering, and proves that the repeated replacement is the
 one-pass numbering, and what the result looks like.
 */
module Renumber {
  import opened Strings

  /** The positional marker `$k`, as `fmt.Sprintf("$%d", k)` prints it. */
  function Dollar(k: nat): (r: string)
    ensures |r| >= 2 && r[0] == '$' && r[1..] == Digits(k)
    ensures CountQ(r) == 0
  {
    DigitsHaveNoMarkers(Digits(k));
    CountQAppend("$", Digits(k));
    "$" + Digits(k)
  }

  /** Index of the first marker of a string that has one. */
  function FirstQ(s: string): (i: nat)
    requires CountQ(s) > 0
    ensures i < |s| && s[i] == '?'
    ensures forall j :: 0 <= j < i ==> s[j] != '?'
  {
    if s[0] == '?' then 0 else 1 + FirstQ(s[1..])
  }

  /** Go's `strings.Replace(s, "?", repl, 1)`: the first marker, if there is
      one, is replaced by `repl`. */
  function ReplaceFirst(s: string, repl: string): string
  {
    if |s| == 0 then ""
    else if s[0] == '?' then repl + s[1..]
    else [s[0]] + ReplaceFirst(s[1..], repl)
  }

  /** The replacement keeps a text without markers, and otherwise keeps
      everything before and after the first marker. */
  lemma {:induction false} ReplaceFirstShape(s: string, repl: string)
    ensures CountQ(s) == 0 ==> ReplaceFirst(s, repl) == s
    ensures CountQ(s) > 0 ==> ReplaceFirst(s, repl) == s[..FirstQ(s)] + repl + s[FirstQ(s) + 1..]
  {
    if |s| > 0 && s[0] != '?' {
      ReplaceFirstShape(s[1..], repl);
      assert CountQ(s) == CountQ(s[1..]);
      if CountQ(s) == 0 {
        assert [s[0]] + s[1..] == s;
      } else {
        assert [s[0]] + s[1..][..FirstQ(s[1..])] == s[..FirstQ(s)];
        assert s[1..][FirstQ(s[1..]) + 1..] == s[FirstQ(s) + 1..];
      }
    }
  }

  /** A marker-free prefix is skipped by the replacement. */
  lemma {:induction false} ReplaceFirstSkip(a: string, b: string, repl: string)
    requires CountQ(a) == 0
    ensures ReplaceFirst(a + b, repl) == a + ReplaceFirst(b, repl)
  {
    if |a| > 0 {
      var s := a + b;
      assert s[0] == a[0] && s[1..] == a[1..] + b;
      assert a[0] != '?' && CountQ(a[1..]) == 0;
      ReplaceFirstSkip(a[1..], b, repl);
      assert ReplaceFirst(s, repl) == [a[0]] + ReplaceFirst(a[1..] + b, repl);
      HeadSplit(a, ReplaceFirst(b, repl));
    } else {
      assert a + b == b;
    }
  }

  /** One pass, left to right: the first `n` markers become `$k`, `$k+1`,
      ..., and every later marker is left alone. */
  function Number(s: string, k: nat, n: nat): string
  {
    if |s| == 0 then ""
    else if s[0] == '?' && n > 0 then Dollar(k) + Number(s[1..], k + 1, n - 1)
    else [s[0]] + Number(s[1..], k, n)
  }

  /** Numbering no marker changes nothing. */
  lemma {:induction false} NumberZero(s: string, k: nat)
    ensures Number(s, k, 0) == s
  {
    if |s| > 0 {
      NumberZero(s[1..], k);
      assert [s[0]] + s[1..] == s;
    }
  }

  /** One more `strings.Replace` call numbers exactly one more marker: after
      `i` calls the text is the one-pass numbering of the first `i`
      markers. */
  lemma {:induction false} NumberStep(s: string, k: nat, i: nat)
    ensures ReplaceFirst(Number(s, k, i), Dollar(k + i)) == Number(s, k, i + 1)
  {
    var d := Dollar(k + i);
    if |s| == 0 {
    } else if s[0] == '?' && i > 0 {
      var rest := Number(s[1..], k + 1, i - 1);
      ReplaceFirstSkip(Dollar(k), rest, d);
      assert k + 1 + (i - 1) == k + i;
      NumberStep(s[1..], k + 1, i - 1);
    } else if s[0] == '?' {
      NumberZero(s, k);
      NumberZero(s[1..], k + 1);
    } else {
      var rest := Number(s[1..], k, i);
      assert CountQ([s[0]]) == 0;
      ReplaceFirstSkip([s[0]], rest, d);
      NumberStep(s[1..], k, i);
    }
  }

  /** Markers left after numbering `n` of them: the rest, or none once `n`
      reaches the number of markers. */
  lemma {:induction false} NumberCount(s: string, k: nat, n: nat)
    ensures CountQ(Number(s, k, n)) == if n <= CountQ(s) then CountQ(s) - n else 0
  {
    if |s| > 0 {
      if s[0] == '?' && n > 0 {
        NumberCount(s[1..], k + 1, n - 1);
        CountQAppend(Dollar(k), Number(s[1..], k + 1, n - 1));
      } else {
        NumberCount(s[1..], k, n);
        CountQAppend([s[0]], Number(s[1..], k, n));
      }
    }
  }

  /** Asking for more numbers than there are markers changes nothing. */
  lemma {:induction false} NumberSaturates(s: string, k: nat, n: nat)
    requires n >= CountQ(s)
    ensures Number(s, k, n) == Number(s, k, CountQ(s))
  {
    if |s| > 0 {
      if s[0] == '?' {
        NumberSaturates(s[1..], k + 1, n - 1);
      } else {
        NumberSaturates(s[1..], k, n);
      }
    }
  }

  /** The text after the n-th marker is left exactly as it was, markers
      included. */
  lemma {:induction false} NumberLeavesRest(a: string, b: string, k: nat)
    ensures Number(a + b, k, CountQ(a)) == Number(a, k, CountQ(a)) + b
  {
    if |a| == 0 {
      assert a + b == b;
      NumberZero(b, k);
    } else {
      assert (a + b)[0] == a[0] && (a + b)[1..] == a[1..] + b;
      if a[0] == '?' {
        NumberLeavesRest(a[1..], b, k + 1);
      } else {
        NumberLeavesRest(a[1..], b, k);
      }
    }
  }

  /** Numbering across a concatenation whose first half holds exactly `n`
      markers: the first half uses numbers `k` to `k+n-1`, the second
      continues from `k+n`. */
  lemma {:induction false} NumberShift(a: string, b: string, k: nat, n: nat, m: nat)
    requires CountQ(a) == n
    ensures Number(a + b, k, n + m) == Number(a, k, n) + Number(b, k + n, m)
  {
    if |a| == 0 {
      assert a + b == b;
    } else {
      var c, t := a[0], a[1..];
      assert CountQ(t) == if c == '?' then n - 1 else n;
      assert a == [c] + t;
      HeadSplit(a, b);
      NumberCons(c, t + b, k, n + m);
      NumberCons(c, t, k, n);
      if c == '?' {
        NumberShift(t, b, k + 1, n - 1, m);
        Assoc3(Dollar(k), Number(t, k + 1, n - 1), Number(b, k + n, m));
      } else {
        NumberShift(t, b, k, n, m);
        Assoc3([c], Number(t, k, n), Number(b, k + n, m));
      }
    }
  }

  /** One step of the numbering on a text given as its first character and
      the rest. */
  lemma NumberCons(c: char, t: string, k: nat, n: nat)
    ensures Number([c] + t, k, n) ==
      if c == '?' && n > 0 then Dollar(k) + Number(t, k + 1, n - 1) else [c] + Number(t, k, n)
  {
    assert ([c] + t)[0] == c && ([c] + t)[1..] == t;
  }

  /** A marker-free prefix is copied through unchanged. */
  lemma NumberSkip(a: string, b: string, k: nat, m: nat)
    requires CountQ(a) == 0
    ensures Number(a + b, k, m) == a + Number(b, k, m)
  {
    NumberShift(a, b, k, 0, m);
    NumberZero(a, k);
  }

  /** The marker-free pieces of a string between its markers: one more piece
      than markers, and joining them back with `?` gives the string. */
  function Segments(s: string): (r: seq<string>)
    ensures |r| == CountQ(s) + 1
    ensures forall i :: 0 <= i < |r| ==> CountQ(r[i]) == 0
    ensures Join(r, "?") == s
  {
    if |s| == 0 then [""]
    else if s[0] == '?' then
      var t := Segments(s[1..]);
      assert ([""] + t)[1..] == t;
      assert s == "?" + s[1..];
      [""] + t
    else
      var t := Segments(s[1..]);
      var r := [[s[0]] + t[0]] + t[1..];
      CountQAppend([s[0]], t[0]);
      assert r[1..] == t[1..];
      assert forall i :: 1 <= i < |r| ==> r[i] == t[i];
      assert s == [s[0]] + s[1..];
      if |t| == 1 then
        r
      else
        assert Join(t, "?") == t[0] + "?" + Join(t[1..], "?");
        r
  }

  /** The pieces with `$k`, `$k+1`, ... between them. */
  function Interleave(segs: seq<string>, k: nat): (r: string)
    requires |segs| >= 1
    ensures CountQ(r) == TotalQ(segs)
  {
    if |segs| == 1 then segs[0]
    else
      var rest := Interleave(segs[1..], k + 1);
      CountQAppend(segs[0], Dollar(k));
      CountQAppend(segs[0] + Dollar(k), rest);
      segs[0] + Dollar(k) + rest
  }

  lemma InterleaveCons(c: char, t: seq<string>, k: nat)
    requires |t| >= 1
    ensures Interleave([[c] + t[0]] + t[1..], k) == [c] + Interleave(t, k)
  {
    var u := [[c] + t[0]] + t[1..];
    assert u[1..] == t[1..];
  }

  /** Numbering every marker of a string puts `$k`, `$k+1`, ... in place of
      its markers, in order, and keeps the text between them. */
  lemma {:induction false} NumberAligned(s: string, k: nat)
    ensures Number(s, k, CountQ(s)) == Interleave(Segments(s), k)
  {
    if |s| > 0 {
      var t := Segments(s[1..]);
      if s[0] == '?' {
        NumberAligned(s[1..], k + 1);
        assert Number(s, k, CountQ(s)) == Dollar(k) + Number(s[1..], k + 1, CountQ(s[1..]));
        assert Segments(s) == [""] + t;
        InterleaveMarker(t, k);
      } else {
        NumberAligned(s[1..], k);
        assert Number(s, k, CountQ(s)) == [s[0]] + Number(s[1..], k, CountQ(s[1..]));
        assert Segments(s) == [[s[0]] + t[0]] + t[1..];
        InterleaveCons(s[0], t, k);
      }
    }
  }

  lemma InterleaveMarker(t: seq<string>, k: nat)
    requires |t| >= 1
    ensures Interleave([""] + t, k) == Dollar(k) + Interleave(t, k + 1)
  {
    assert ([""] + t)[1..] == t;
    assert "" + Dollar(k) == Dollar(k);
  }

  /** Numbering the markers between marker-free pieces puts `$k`, `$k+1`,
      ... between those pieces. */
  lemma {:induction false} NumberJoin(segs: seq<string>, k: nat)
    requires |segs| >= 1
    requires forall i :: 0 <= i < |segs| ==> CountQ(segs[i]) == 0
    ensures Number(Join(segs, "?"), k, |segs| - 1) == Interleave(segs, k)
  {
    if |segs| == 1 {
      NumberZero(segs[0], k);
    } else {
      var rest := Join(segs[1..], "?");
      assert segs[0] + "?" + rest == segs[0] + ("?" + rest);
      NumberSkip(segs[0], "?" + rest, k, |segs| - 1);
      assert ("?" + rest)[0] == '?' && ("?" + rest)[1..] == rest;
      NumberJoin(segs[1..], k + 1);
    }
  }

  /** The first marker after a marker-free prefix becomes `$k`, and
      numbering continues after it. */
  lemma NumberFirst(a: string, b: string, k: nat, n: nat)
    requires CountQ(a) == 0 && n >= 1
    ensures Number(a + "?" + b, k, n) == a + Dollar(k) + Number(b, k + 1, n - 1)
  {
    assert a + "?" + b == a + ("?" + b);
    NumberSkip(a, "?" + b, k, n);
    assert ("?" + b)[0] == '?' && ("?" + b)[1..] == b;
  }
}
