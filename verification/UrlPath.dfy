/** normalize_path: dot segments and empty segments are removed. */
module UrlPath {
  import opened TextSplit

  /** One segment that is followed by a slash. */
  function Visit(es: seq<string>, e: string): seq<string> {
    if e == "" || e == "." then es
    else if e == ".." then (if es == [] then es else es[..|es| - 1])
    else es + [e]
  }

  function VisitAll(es: seq<string>, segs: seq<string>): seq<string> {
    if segs == [] then es else Visit(VisitAll(es, segs[..|segs| - 1]), segs[|segs| - 1])
  }

  /** The last segment. */
  function VisitLast(es: seq<string>, e: string): seq<string> {
    if e == "." then es + [""]
    else if e == ".." then (if es == [] then es else es[..|es| - 1])
    else es + [e]
  }

  function Elements(s: string): seq<string> {
    var segs := Split('/', s);
    VisitLast(VisitAll([], segs[..|segs| - 1]), segs[|segs| - 1])
  }

  function Root(s: string): string { if s != "" && s[0] == '/' then "/" else "" }

  function NormalizePath(s: string): string { if s == "" then s else Root(s) + Join('/', Elements(s)) }

  // ---------- segments ----------

  /** A segment that is kept as it is. */
  predicate IsKept(e: string) { IsSegment('/', e) && e != "" && e != "." && e != ".." }

  predicate AllKept(es: seq<string>) { forall k :: 0 <= k < |es| ==> IsKept(es[k]) }

  /** What normalisation leaves: every element is kept; the last one may be empty. */
  predicate Normal(es: seq<string>) {
    es == [] || (AllKept(es[..|es| - 1]) && (IsKept(es[|es| - 1]) || es[|es| - 1] == ""))
  }

  lemma {:induction false} VisitedKept(segs: seq<string>)
    requires AllSegments('/', segs)
    ensures AllKept(VisitAll([], segs))
  {
    if segs != [] {
      VisitedKept(segs[..|segs| - 1]);
      assert IsSegment('/', segs[|segs| - 1]);
    }
  }

  lemma {:induction false} ElementsNormal(s: string)
    ensures Normal(Elements(s))
  {
    var segs := Split('/', s);
    SplitSegments('/', s);
    var es, e := VisitAll([], segs[..|segs| - 1]), segs[|segs| - 1];
    VisitedKept(segs[..|segs| - 1]);
    assert (es + [e])[..|es|] == es && (es + [""])[..|es|] == es;
  }

  /** Kept segments pass through. */
  lemma {:induction false} KeptStay(es: seq<string>)
    requires AllKept(es)
    ensures VisitAll([], es) == es && VisitAll([], [""] + es) == es
  {
    if es == [] {
      assert [""] + es == [""] && VisitAll([], [""]) == Visit(VisitAll([], [""][..0]), "");
    } else {
      var n := |es| - 1;
      KeptStay(es[..n]);
      assert es == es[..n] + [es[n]];
      assert ([""] + es)[..n + 1] == [""] + es[..n] && ([""] + es)[n + 1] == es[n];
    }
  }

  // ---------- normal paths ----------

  /** Elements that print something. */
  predicate Visible(es: seq<string>) { Normal(es) && es != [] && es != [""] }

  lemma {:induction false} VisibleFirst(es: seq<string>)
    requires Visible(es)
    ensures es[0] != "" && es[0][0] != '/'
  {
    var n := |es| - 1;
    if n == 0 {
      assert es == [es[n]];
    } else {
      assert es[..n][0] == es[0];
    }
    assert IsKept(es[0]) && es[0][0] in es[0];
  }

  lemma {:induction false} VisibleSegments(es: seq<string>)
    requires Visible(es)
    ensures AllSegments('/', es) && AllKept(es[..|es| - 1])
  {
    var n := |es| - 1;
    forall k | 0 <= k < |es| ensures IsSegment('/', es[k]) {
      if k < n { assert es[..n][k] == es[k]; }
    }
  }

  lemma {:induction false} VisibleStarts(es: seq<string>)
    requires Visible(es)
    ensures Join('/', es) != "" && Join('/', es)[0] != '/' && AllSegments('/', es) && AllKept(es[..|es| - 1])
  {
    VisibleFirst(es);
    VisibleSegments(es);
    JoinStarts('/', es);
  }

  lemma {:induction false} RelativeElements(es: seq<string>)
    requires Visible(es)
    ensures Elements(Join('/', es)) == es
  {
    var n := |es| - 1;
    VisibleStarts(es);
    SplitJoin('/', es);
    KeptStay(es[..n]);
    assert es[..n] + [es[n]] == es;
  }

  lemma {:induction false} RootedElements(es: seq<string>)
    requires Visible(es)
    ensures Elements("/" + Join('/', es)) == es
  {
    var n := |es| - 1;
    VisibleStarts(es);
    SplitJoin('/', es);
    SplitInFront('/', Join('/', es));
    KeptStay(es[..n]);
    assert ([""] + es)[..n + 1] == [""] + es[..n] && ([""] + es)[n + 1] == es[n];
    assert es[..n] + [es[n]] == es;
  }

  lemma {:induction false} RootAlone()
    ensures NormalizePath("/") == "/"
  {
    assert Split('/', "/") == ["", ""] by { assert "/"[..0] == "" && "/"[0] == '/'; }
    assert ["", ""][..1] == [""] && [""][..0] == [];
    assert VisitAll([], [""]) == [] && Elements("/") == [""];
  }

  /** A path printed from normal elements is left as it is. */
  lemma {:induction false} NormalStays(root: string, es: seq<string>)
    requires Normal(es) && (root == "" || root == "/")
    ensures NormalizePath(root + Join('/', es)) == root + Join('/', es)
  {
    var t := root + Join('/', es);
    if !Visible(es) {
      assert Join('/', es) == "" && t == root;
      RootAlone();
    } else {
      VisibleStarts(es);
      if root == "" {
        assert t == Join('/', es);
        RelativeElements(es);
        assert "" + Join('/', es) == Join('/', es);
      } else {
        RootedElements(es);
      }
    }
  }

  predicate IsAbsolute(s: string) { s != "" && s[0] == '/' }

  /** normalize_path is idempotent, keeps whether the path is absolute, and its result never starts with "//". */
  lemma {:induction false} NormalizeTwice(s: string)
    ensures var t := NormalizePath(s);
      NormalizePath(t) == t && IsAbsolute(t) == IsAbsolute(s) && !(|t| >= 2 && t[0] == '/' && t[1] == '/')
  {
    if s != "" {
      var es, t := Elements(s), NormalizePath(s);
      ElementsNormal(s);
      NormalStays(Root(s), es);
      if Visible(es) { VisibleStarts(es); } else { assert Join('/', es) == ""; }
    }
  }

  /** Behind the root there is no "." or ".." segment, and no empty one except perhaps the last. */
  lemma {:induction false} NormalForm(s: string)
    requires s != ""
    ensures var t := NormalizePath(s);
      |Root(s)| <= |t| && t[..|Root(s)|] == Root(s) && Normal(Split('/', t[|Root(s)|..]))
  {
    var es, t := Elements(s), NormalizePath(s);
    ElementsNormal(s);
    assert t[|Root(s)|..] == Join('/', es);
    if Visible(es) {
      VisibleStarts(es);
      SplitJoin('/', es);
    } else {
      assert Join('/', es) == "";
    }
  }

  // ---------- the loops ----------

  /** The loop over std::getline. */
  method VisitLoop(segs: seq<string>) returns (es: seq<string>)
    ensures es == VisitAll([], segs)
  {
    es := [];
    assert segs[..0] == [];
    for i := 0 to |segs|
      invariant es == VisitAll([], segs[..i])
    {
      assert segs[..i + 1][..i] == segs[..i];
      var e := segs[i];
      if e == "" || e == "." {
        continue;
      }
      if e == ".." {
        if es != [] {
          es := es[..|es| - 1];
        }
        continue;
      }
      es := es + [e];
    }
    assert segs[..|segs|] == segs;
  }

  /** The printing loop. */
  method JoinLoop(es: seq<string>) returns (t: string)
    ensures t == Join('/', es)
  {
    t := "";
    if es != [] {
      t := es[0];
      assert es[..1] == [es[0]];
      for i := 1 to |es|
        invariant t == Join('/', es[..i])
      {
        assert es[..i + 1][..i] == es[..i];
        t := t + ['/'] + es[i];
      }
      assert es[..|es|] == es;
    }
  }

  method Normalize(s: string) returns (t: string)
    ensures t == NormalizePath(s)
  {
    if s == "" {
      return s;
    }
    var segs := Split('/', s);
    var n := |segs| - 1;
    var es := VisitLoop(segs[..n]);
    if segs[n] == "." {
      es := es + [""];
    } else if segs[n] == ".." {
      if es != [] {
        es := es[..|es| - 1];
      }
    } else {
      es := es + [segs[n]];
    }
    t := JoinLoop(es);
    t := (if s[0] == '/' then "/" else "") + t;
  }
}
