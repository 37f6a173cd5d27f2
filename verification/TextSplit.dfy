/** Text cut at a separator character, and put together again. */
module TextSplit {
  /** The pieces of text between separators; std::getline yields these one by one. */
  function Split(sep: char, s: string): (r: seq<string>)
    ensures r != []
  {
    if s == "" then [""]
    else
      AddChar(Split(sep, s[..|s| - 1]), s[|s| - 1], sep)
  }

  /** One character more: a new piece, or a longer last one. */
  function AddChar(r: seq<string>, c: char, sep: char): (q: seq<string>)
    requires r != []
    ensures q != []
  {
    if c == sep then r + [""] else r[..|r| - 1] + [r[|r| - 1] + [c]]
  }

  function Join(sep: char, es: seq<string>): string {
    if es == [] then "" else if |es| == 1 then es[0] else Join(sep, es[..|es| - 1]) + [sep] + es[|es| - 1]
  }

  predicate IsSegment(sep: char, e: string) { sep !in e }

  predicate AllSegments(sep: char, es: seq<string>) { forall k :: 0 <= k < |es| ==> IsSegment(sep, es[k]) }

  lemma {:induction false} SplitSegments(sep: char, s: string)
    ensures AllSegments(sep, Split(sep, s))
  {
    if s != "" { SplitSegments(sep, s[..|s| - 1]); }
  }

  lemma {:induction false} SplitAppend(sep: char, s: string, e: string)
    requires IsSegment(sep, e)
    ensures var r := Split(sep, s); Split(sep, s + e) == r[..|r| - 1] + [r[|r| - 1] + e]
  {
    var r := Split(sep, s);
    if e == "" {
      assert s + e == s && r[|r| - 1] + e == r[|r| - 1] && r[..|r| - 1] + [r[|r| - 1]] == r;
    } else {
      var n := |e| - 1;
      assert forall c :: c in e[..n] ==> c in e;
      SplitAppend(sep, s, e[..n]);
      assert e[n] in e;
      assert (s + e)[..|s + e| - 1] == s + e[..n] && (s + e)[|s + e| - 1] == e[n];
      var q := Split(sep, s + e[..n]);
      assert q[..|q| - 1] == r[..|r| - 1] && q[|q| - 1] == r[|r| - 1] + e[..n];
      assert r[|r| - 1] + e[..n] + [e[n]] == r[|r| - 1] + e;
    }
  }

  lemma {:induction false} SplitSeparator(sep: char, s: string)
    ensures Split(sep, s + [sep]) == Split(sep, s) + [""]
  {
    assert (s + [sep])[..|s|] == s;
  }

  lemma {:induction false} AddCharBehind(q: seq<string>, r: seq<string>, c: char, sep: char)
    requires r != []
    ensures AddChar(q + r, c, sep) == q + AddChar(r, c, sep)
  {
    var w := q + r;
    assert w[..|w| - 1] == q + r[..|r| - 1] && w[|w| - 1] == r[|r| - 1];
  }

  lemma {:induction false} SplitSnoc(sep: char, s: string, c: char, t: string)
    requires t == s + [c]
    ensures Split(sep, t) == AddChar(Split(sep, s), c, sep)
  {
    assert t[..|t| - 1] == s && t[|t| - 1] == c;
  }

  /** Text is split on either side of a separator. */
  lemma {:induction false} SplitConcat(sep: char, x: string, y: string)
    ensures Split(sep, x + [sep] + y) == Split(sep, x) + Split(sep, y)
  {
    if y == "" {
      assert x + [sep] + y == x + [sep];
      SplitSeparator(sep, x);
    } else {
      var n := |y| - 1;
      var z := y[..n];
      SplitConcat(sep, x, z);
      SplitSnoc(sep, z, y[n], y);
      SplitSnoc(sep, x + [sep] + z, y[n], x + [sep] + y);
      AddCharBehind(Split(sep, x), Split(sep, z), y[n], sep);
    }
  }

  lemma {:induction false} SplitSegment(sep: char, e: string)
    requires IsSegment(sep, e)
    ensures Split(sep, e) == [e]
  {
    SplitAppend(sep, "", e);
    assert "" + e == e && [""][..0] + [e] == [e];
  }

  /** Splitting inverts joining. */
  lemma {:induction false} SplitJoin(sep: char, es: seq<string>)
    requires es != [] && AllSegments(sep, es)
    ensures Split(sep, Join(sep, es)) == es
  {
    var n := |es| - 1;
    assert IsSegment(sep, es[n]);
    SplitSegment(sep, es[n]);
    if n == 0 {
      assert es == [es[0]];
    } else {
      SplitJoin(sep, es[..n]);
      SplitConcat(sep, Join(sep, es[..n]), es[n]);
      assert es[..n] + [es[n]] == es;
    }
  }

  lemma {:induction false} SplitInFront(sep: char, s: string)
    ensures Split(sep, [sep] + s) == [""] + Split(sep, s)
  {
    SplitConcat(sep, "", s);
    assert "" + [sep] + s == [sep] + s;
  }

  lemma {:induction false} JoinStarts(sep: char, es: seq<string>)
    requires es != [] && es[0] != ""
    ensures Join(sep, es) != "" && Join(sep, es)[0] == es[0][0]
  {
    if |es| > 1 { JoinStarts(sep, es[..|es| - 1]); }
  }

  /** More text, no fewer pieces. */
  lemma {:induction false} SplitGrows(sep: char, x: string, y: string)
    ensures |Split(sep, x)| <= |Split(sep, x + y)|
  {
    if y == "" {
      assert x + y == x;
    } else {
      var z := y[..|y| - 1];
      SplitGrows(sep, x, z);
      assert x + y == x + z + [y[|y| - 1]];
      SplitSnoc(sep, x + z, y[|y| - 1], x + y);
    }
  }

  /** As many pieces, hence no further separator. */
  lemma {:induction false} SplitSame(sep: char, x: string, y: string)
    requires |Split(sep, x + y)| == |Split(sep, x)|
    ensures sep !in y
  {
    if sep in y {
      var i :| 0 <= i < |y| && y[i] == sep;
      assert x + y == x + y[..i] + [sep] + y[i + 1..];
      SplitConcat(sep, x + y[..i], y[i + 1..]);
      SplitGrows(sep, x, y[..i]);
    }
  }

  lemma {:induction false} JoinLast(sep: char, es: seq<string>, e: string)
    ensures Join(sep, es + [e]) == if es == [] then e else Join(sep, es) + [sep] + e
  {
    assert (es + [e])[..|es|] == es;
    if es == [] { assert es + [e] == [e]; }
  }

  /** Text is no shorter than its last piece and the separators before it. */
  lemma {:induction false} SplitLength(sep: char, s: string)
    ensures var r := Split(sep, s); |s| >= |r[|r| - 1]| + |r| - 1
  {
    if s != "" { SplitLength(sep, s[..|s| - 1]); }
  }
}
