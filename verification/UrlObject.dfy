/** The HttpUrl object: it parses its string when a part is first asked for, and builds it again on demand. */
module UrlObject {
  import opened UrlCoding
  import opened UrlPath
  import opened UrlQuery
  import opened HttpUrl

  lemma {:induction false} EmptyBuilds()
    ensures AsciiParts(EMPTY) && Build(EMPTY) == Some("")
  {
    assert Buildable(EMPTY) && Encode("", PATH, Normal) == "" && QueryPart([]) == "" && FragmentPart("") == "";
    assert RestText(EMPTY) == "" + ("" + "") == "";
    assert SchemeText("") == "" && "" + ("" + "") == "";
  }

  class UrlHolder {
    var url: string
    var parts: Parts
    var parsed: bool
    var built: bool

    /** What the object stands for, parsed or not. */
    ghost function View(): Outcome<Parts>
      reads this
    {
      if parsed then Parsed(parts) else Parse(url)
    }

    /** A string that counts as built is the one that the parts give. */
    ghost predicate Valid()
      reads this
    {
      built ==> parsed && AsciiParts(parts) && Build(parts) == Some(url)
    }

    constructor (s: string)
      ensures Valid() && View() == Parse(s)
    {
      url, parts, parsed, built := s, EMPTY, false, false;
    }

    method Assign(s: string)
      modifies this
      ensures Valid() && View() == Parse(s)
    {
      url, parsed, built := s, false, false;
    }

    /** lazy_parse; `ok` is false when parse_url throws, or the host is outside the model. */
    method LazyParse() returns (ok: bool)
      requires Valid()
      modifies this
      ensures Valid() && View() == old(View()) && ok == View().Parsed? && (ok ==> parsed) && url == old(url)
    {
      if !parsed {
        var r := Parse(url);
        if !r.Parsed? {
          return false;
        }
        EmptyBuilds();
        parts, parsed, built := r.value, true, url == "";
      }
      return true;
    }

    /** str(): the string is built unless it counts as built.  build_url leaves the flag false, so the next call
        builds again, from the same parts. */
    method Str() returns (r: Maybe<string>)
      requires Valid() && (View().Parsed? ==> AsciiParts(View().value))
      modifies this
      ensures Valid() && View() == old(View())
      ensures r == if View().Parsed? then Build(View().value) else None
    {
      if !built {
        var ok := LazyParse();
        if !ok {
          return None;
        }
        var b := Build(parts);
        if b.None? {
          return None;
        }
        built := false;
        url := b.value;
      }
      return Some(url);
    }

    /** path(p): the path is normalised, and the string has to be built again if it changed. */
    method SetPath(p: string) returns (ok: bool)
      requires Valid()
      modifies this
      ensures Valid() && ok == (|p| <= 8000 && old(View()).Parsed?)
      ensures View() == if ok then Parsed(old(View()).value.(path := NormalizePath(p))) else old(View())
    {
      if |p| > 8000 {
        return false;
      }
      ok := LazyParse();
      if ok {
        var o := Normalize(p);
        if parts.path != o {
          parts, built := parts.(path := o), false;
        }
      }
    }

    method AddQuery(key: string, val: string) returns (ok: bool)
      requires Valid()
      modifies this
      ensures Valid() && ok == old(View()).Parsed?
      ensures View() == if ok then Parsed(old(View()).value.(query := old(View()).value.query + [Pair(key, val)]))
        else old(View())
    {
      ok := LazyParse();
      if ok {
        parts, built := parts.(query := parts.query + [Pair(key, val)]), false;
      }
    }
  }
}
