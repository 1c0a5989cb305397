/**
 * The Wikipedia side of category enrichment: the categories of a page are
 * filtered against a list of maintenance keywords, stripped of their
 * `Category:` prefix and joined into one string that starts with the page
 * title. Archive sub-pages are looked up under their base page.
 *
 * The HTTP request and JSON decoding are a function parameter that yields
 * the outcome of the lookup.
 */
module WikiCategories {
  import opened Wrappers
  import opened Text

  /** The keywords that mark a category as maintenance rather than topic (case-sensitive). */
  const Keywords: seq<string> := [
    "Wikipedia", "AC with", "CS1", "Good articles", "Articles", "All articles", "Pages",
    "Use mdy dates from", "Use dmy dates from", "English from", "Webarchive template",
    "births", "deaths", "Redirects"]

  /** The separator between joined category names. */
  const Separator: string := ", "

  /** One category of a page, as returned by the category query. */
  datatype WikiCategory = WikiCategory(title: string)

  /** `keywords.some(key => title.includes(key))`. */
  predicate HasKeyword(title: string) {
    exists k :: 0 <= k < |Keywords| && Contains(title, Keywords[k])
  }

  /** The category name without its nine-character `Category:` prefix (`substring(9)`). */
  function StripPrefix(title: string): string {
    SuffixFrom(title, 9)
  }

  /** The filter-then-map of `cleanCategories`: the stripped names of the kept categories, in input order. */
  function KeptNames(cats: seq<WikiCategory>): (names: seq<string>)
    ensures |names| <= |cats|
    ensures |names| == 0 <==> forall i :: 0 <= i < |cats| ==> HasKeyword(cats[i].title)
    ensures forall k :: 0 <= k < |names| ==>
      exists i :: 0 <= i < |cats| && !HasKeyword(cats[i].title) && names[k] == StripPrefix(cats[i].title)
  {
    if |cats| == 0 then []
    else
      var init := KeptNames(cats[..|cats| - 1]);
      var last := cats[|cats| - 1];
      assert forall i :: 0 <= i < |cats| - 1 ==> cats[..|cats| - 1][i] == cats[i];
      if HasKeyword(last.title) then init else init + [StripPrefix(last.title)]
  }

  /** A category is kept (and stripped) exactly when its title contains none of the keywords. */
  lemma KeptIffNoKeyword(c: WikiCategory)
    ensures KeptNames([c]) == (if HasKeyword(c.title) then [] else [StripPrefix(c.title)])
  {
    assert [c][..0] == [];
  }

  /** Filtering is done element by element, so the kept names keep their input order. */
  lemma {:induction false} KeptNamesAppend(a: seq<WikiCategory>, b: seq<WikiCategory>)
    ensures KeptNames(a + b) == KeptNames(a) + KeptNames(b)
    decreases |b|
  {
    if |b| > 0 {
      var b' := b[..|b| - 1];
      assert (a + b)[..|a + b| - 1] == a + b';
      KeptNamesAppend(a, b');
    } else {
      assert a + b == a;
    }
  }

  /** `cleanCategories`: None (undefined) when no category survives, else the kept names joined with `, `. */
  function CleanCategories(cats: seq<WikiCategory>): (r: Option<string>)
    ensures r.None? <==> forall i :: 0 <= i < |cats| ==> HasKeyword(cats[i].title)
    ensures r.Some? ==> r.value == Join(KeptNames(cats), Separator)
  {
    var names := KeptNames(cats);
    if |names| == 0 then None else Some(Join(names, Separator))
  }

  /** A single surviving category yields its stripped name alone. */
  lemma CleanSingle(c: WikiCategory)
    requires !HasKeyword(c.title)
    ensures CleanCategories([c]) == Some(StripPrefix(c.title))
  {
    KeptIffNoKeyword(c);
  }

  // ---------------------------------------------------------------------
  // getWikiCategories

  /** An archive page is looked up under the text before its first `/`; any other title as it is. */
  function TruncateTitle(title: string): (t: string)
    ensures !Contains(title, "/Archive") ==> t == title
    ensures Contains(title, "/Archive") ==> t == Split(title, "/")[0]
    ensures Contains(title, "/Archive") ==> t == title[..|t|] && !Contains(t, "/")
  {
    SplitHeadNoSep(title, "/");
    if Contains(title, "/Archive") then Split(title, "/")[0] else title
  }

  /** The truncated title of an archive page is the text before its first `/`, which need not be the `/Archive`. */
  lemma TruncateArchive(base: string, rest: string)
    requires !Contains(base, "/")
    requires Contains(rest, "/Archive")
    ensures TruncateTitle(base + "/" + rest) == base
    ensures !Contains(TruncateTitle(base + "/" + rest), "/")
  {
    var title := base + "/" + rest;
    assert title[|base| + 1..|title|] == rest;
    ContainsWithin(title, "/Archive", |base| + 1, |title|);
    assert title[|base|..|base| + 1] == "/";
    assert OccursAt(title, "/", |base|);
    ContainsIff(base, "/");
    forall j: nat | j < |base| ensures !OccursAt(title, "/", j) {
      assert title[j..j + 1] == base[j..j + 1];
      assert !OccursAt(base, "/", j);
    }
    assert IndexOf(title, "/") == Some(|base|);
    SplitHead(title, "/");
    assert title[..|base|] == base;
  }

  /** What the category query returned: an error, or the first page's category list (None when absent). */
  datatype FetchOutcome = FetchFailed | Fetched(categories: Option<seq<WikiCategory>>)

  /**
   * `getWikiCategories`: the (truncated) title and the cleaned categories, or None (undefined) when the
   * query failed, the page has no or an empty category list, or every category was filtered out.
   */
  function GetWikiCategories(title: string, fetch: string -> FetchOutcome): (r: Option<string>)
    ensures r.Some? <==>
      && fetch(TruncateTitle(title)).Fetched?
      && fetch(TruncateTitle(title)).categories.Some?
      && exists i :: 0 <= i < |fetch(TruncateTitle(title)).categories.value|
                     && !HasKeyword(fetch(TruncateTitle(title)).categories.value[i].title)
    ensures r.Some? ==>
      r.value == TruncateTitle(title) + Separator
                 + Join(KeptNames(fetch(TruncateTitle(title)).categories.value), Separator)
  {
    var t := TruncateTitle(title);
    match fetch(t)
    case FetchFailed => None
    case Fetched(None) => None
    case Fetched(Some(cats)) =>
      if |cats| == 0 then None
      else
        match CleanCategories(cats)
        case None => None
        case Some(cleaned) => Some(t + Separator + cleaned)
  }
}
