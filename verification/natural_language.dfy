/**
 * The classifier side of category enrichment: the content sent to the
 * natural-language classifier, the interpretation of its reply, and
 * `cleanCatResults`, which turns the taxonomy paths it returns
 * (`/Arts & Entertainment/Music/Jazz`) into records sorted by confidence.
 *
 * The classifier itself is a remote service; its reply is an input.
 */
module NaturalLanguage {
  import opened Wrappers
  import opened Text
  import opened Sorting

  /** One category of a classifier reply: a taxonomy path and a confidence. */
  datatype RawCategory = RawCategory(name: string, confidence: real)

  /** A cleaned category: up to three levels of the path (None for null) and the confidence. */
  datatype CategoryRecord = CategoryRecord(
    category: string, subCategory: Option<string>, subsubCategory: Option<string>, confidence: real)

  /** `name.substr(1)`: the name without its leading `/`. */
  function StripName(name: string): (s: string)
    ensures |name| >= 1 ==> name == name[..1] + s
    ensures |name| == 0 ==> s == ""
  {
    SuffixFrom(name, 1)
  }

  /** The names are overwritten in place, so a second clean strips another character. */
  lemma StripTwice(name: string)
    ensures StripName(StripName(name)) == SuffixFrom(name, 2)
  {
  }

  /** `cat[k] ? cat[k] : null`: a missing or empty segment is null. */
  function Segment(parts: seq<string>, k: nat): (r: Option<string>)
    ensures r.Some? <==> k < |parts| && parts[k] != ""
    ensures r.Some? ==> r.value == parts[k]
  {
    if k < |parts| && parts[k] != "" then Some(parts[k]) else None
  }

  /** The record built from an already stripped name. */
  function BuildRecord(stripped: string, confidence: real): (r: CategoryRecord)
    ensures r.confidence == confidence
    ensures |r.category| <= |stripped| && r.category == stripped[..|r.category|]
    ensures !Contains(r.category, "/")
    ensures !Contains(stripped, "/") ==> r == CategoryRecord(stripped, None, None, confidence)
    ensures Contains(stripped, "/") ==> r.category == stripped[..IndexOf(stripped, "/").value]
    ensures var parts := Split(stripped, "/");
      r.category == parts[0] && r.subCategory == Segment(parts, 1) && r.subsubCategory == Segment(parts, 2)
  {
    SplitHead(stripped, "/");
    var parts := Split(stripped, "/");
    SplitHeadNoSep(stripped, "/");
    SplitNoSep(stripped, "/");
    CategoryRecord(parts[0], Segment(parts, 1), Segment(parts, 2), confidence)
  }

  /** The path's levels come back: joining the non-null levels with `/` gives the stripped name back when it has at most three. */
  lemma BuildRecordLevels(stripped: string, confidence: real)
    requires |Split(stripped, "/")| <= 3
    requires forall k :: 0 < k < |Split(stripped, "/")| ==> Split(stripped, "/")[k] != ""
    ensures var r := BuildRecord(stripped, confidence);
      Join([r.category]
           + (if r.subCategory.Some? then [r.subCategory.value] else [])
           + (if r.subsubCategory.Some? then [r.subsubCategory.value] else []), "/") == stripped
  {
    var parts := Split(stripped, "/");
    var r := BuildRecord(stripped, confidence);
    JoinSplit(stripped, "/");
    if |parts| == 1 {
      assert [r.category] == parts;
    } else if |parts| == 2 {
      assert [r.category] + [r.subCategory.value] == parts;
    } else {
      assert [r.category] + [r.subCategory.value] + [r.subsubCategory.value] == parts;
    }
  }

  /**
   * A path of levels without `/` gives its first level as the category and its second and third
   * as the sub-levels, an empty one as null; levels past the third are dropped.
   */
  lemma BuildRecordPath(levels: seq<string>, confidence: real)
    requires |levels| >= 1
    requires forall k, j :: 0 <= k < |levels| && 0 <= j < |levels[k]| ==> levels[k][j] != '/'
    ensures BuildRecord(Join(levels, "/"), confidence) == CategoryRecord(
      levels[0],
      if |levels| > 1 && levels[1] != "" then Some(levels[1]) else None,
      if |levels| > 2 && levels[2] != "" then Some(levels[2]) else None,
      confidence)
  {
    SplitJoin(levels, '/');
  }

  /** `a/b/c/d` keeps `c` as its third level and drops `d`; `a//b` has a null second level and `b` as its third. */
  lemma BuildRecordExamples(confidence: real)
    ensures BuildRecord("a/b/c/d", confidence) == CategoryRecord("a", Some("b"), Some("c"), confidence)
    ensures BuildRecord("a//b", confidence) == CategoryRecord("a", None, Some("b"), confidence)
  {
    assert Join(["a", "b", "c", "d"], "/") == "a/b/c/d";
    BuildRecordPath(["a", "b", "c", "d"], confidence);
    assert Join(["a", "", "b"], "/") == "a//b";
    BuildRecordPath(["a", "", "b"], confidence);
  }

  /** The sort key: `a.confidence < b.confidence ? 1 : ...` puts higher confidence first. */
  function DescendingKey(r: CategoryRecord): real {
    -r.confidence
  }

  /** The categories after the in-place name overwrite. */
  function StrippedAll(cats: seq<RawCategory>): (r: seq<RawCategory>)
    ensures |r| == |cats|
    ensures forall i :: 0 <= i < |cats| ==> r[i] == cats[i].(name := StripName(cats[i].name))
  {
    seq(|cats|, i requires 0 <= i < |cats| => cats[i].(name := StripName(cats[i].name)))
  }

  /** The records pushed by the `forEach`, one per category, in input order. */
  function Built(cats: seq<RawCategory>): (r: seq<CategoryRecord>)
    ensures |r| == |cats|
    ensures forall i :: 0 <= i < |cats| ==> r[i] == BuildRecord(StripName(cats[i].name), cats[i].confidence)
  {
    seq(|cats|, i requires 0 <= i < |cats| => BuildRecord(StripName(cats[i].name), cats[i].confidence))
  }

  /**
   * What `cleanCatResults` returns for categories it has not yet stripped: records with equal
   * confidence keep their input order, as the comparator returns 0 for them and the sort is stable.
   */
  function CleanedRecords(cats: seq<RawCategory>): (r: seq<CategoryRecord>)
    ensures |r| == |cats|
    ensures multiset(r) == multiset(Built(cats))
    ensures forall i, j :: 0 <= i < j < |r| ==> r[i].confidence >= r[j].confidence
    ensures forall k :: KeyIs(r, DescendingKey, k) == KeyIs(Built(cats), DescendingKey, k)
  {
    SortByStable(Built(cats), DescendingKey);
    var r := SortBy(Built(cats), DescendingKey);
    assert forall i, j :: 0 <= i < j < |r| ==> DescendingKey(r[i]) <= DescendingKey(r[j]);
    r
  }

  /** Every cleaned record carries the confidence of some input category. */
  lemma CleanedConfidences(cats: seq<RawCategory>, k: nat)
    requires k < |CleanedRecords(cats)|
    ensures exists i :: 0 <= i < |cats| && CleanedRecords(cats)[k].confidence == cats[i].confidence
  {
    var r := CleanedRecords(cats);
    assert r[k] in multiset(Built(cats));
    var i :| 0 <= i < |Built(cats)| && Built(cats)[i] == r[k];
  }

  /** Categories already in descending confidence keep their order. */
  lemma CleanedKeepsSortedOrder(cats: seq<RawCategory>)
    requires forall i, j :: 0 <= i < j < |cats| ==> cats[i].confidence >= cats[j].confidence
    ensures CleanedRecords(cats) == Built(cats)
  {
    SortBySorted(Built(cats), DescendingKey);
  }

  /**
   * `cleanCatResults`: overwrites each category's name with its stripped form, pushes one record per
   * category, and returns the records sorted by descending confidence.
   */
  method CleanCatResults(cats: array<RawCategory>) returns (cleaned: seq<CategoryRecord>)
    modifies cats
    ensures cats[..] == StrippedAll(old(cats[..]))
    ensures cleaned == CleanedRecords(old(cats[..]))
  {
    var records: seq<CategoryRecord> := [];
    var i := 0;
    while i < cats.Length
      invariant 0 <= i <= cats.Length && |records| == i
      invariant forall j :: 0 <= j < i ==> cats[j] == old(cats[j]).(name := StripName(old(cats[j]).name))
      invariant forall j :: i <= j < cats.Length ==> cats[j] == old(cats[j])
      invariant forall j :: 0 <= j < i ==> records[j] == BuildRecord(StripName(old(cats[j]).name), old(cats[j]).confidence)
    {
      cats[i] := cats[i].(name := StripName(cats[i].name));
      records := records + [BuildRecord(cats[i].name, cats[i].confidence)];
      i := i + 1;
    }
    assert cats[..] == StrippedAll(old(cats[..]));
    assert records == Built(old(cats[..]));
    cleaned := SortBy(records, DescendingKey);
  }

  // ---------------------------------------------------------------------
  // getCloudCategory

  /** The text sent to the classifier: the category string, then the title. */
  function ClassifierContent(text: string, title: string): (content: string)
    ensures |content| == |text| + 2 + |title|
    ensures content[..|text|] == text && content[|content| - |title|..] == title
  {
    text + ", " + title
  }

  /** The classifier's reply to one request. */
  datatype ClassifyReply =
    | Classified(categories: seq<RawCategory>)
    | TooFewTokens
    | QuotaExceeded
    | Failed

  /** What one request leads to. */
  datatype CloudStep =
    | Records(records: seq<CategoryRecord>)
    | RetryWith(text: string, title: string)
    | QuotaTimer
    | Undefined

  /**
   * One round of `getCloudCategory`: the records of a reply; a retry whose text is the content twice
   * when the content had too few words; a timer on quota errors; undefined on any other error.
   */
  function CloudCategoryStep(text: string, title: string, reply: ClassifyReply): (s: CloudStep)
    ensures reply.Classified? ==> s == Records(CleanedRecords(reply.categories))
    ensures reply.TooFewTokens? ==>
      (s.RetryWith? && s.title == title
       && s.text == ClassifierContent(text, title) + ", " + ClassifierContent(text, title))
    ensures reply.QuotaExceeded? ==> s == QuotaTimer
    ensures reply.Failed? ==> s == Undefined
  {
    var content := ClassifierContent(text, title);
    match reply
    case Classified(cats) => Records(CleanedRecords(cats))
    case TooFewTokens => RetryWith(content + ", " + content, title)
    case QuotaExceeded => QuotaTimer
    case Failed => Undefined
  }

  /** Each retry for too few words sends strictly longer content, with the original content at its start. */
  lemma RetryGrows(text: string, title: string)
    ensures var s := CloudCategoryStep(text, title, TooFewTokens);
      && |ClassifierContent(s.text, title)| > |ClassifierContent(text, title)|
      && ClassifierContent(s.text, title)[..|ClassifierContent(text, title)|] == ClassifierContent(text, title)
  {
    var c := ClassifierContent(text, title);
    var s := CloudCategoryStep(text, title, TooFewTokens);
    assert s.text == c + ", " + c;
    assert ClassifierContent(s.text, title) == c + (", " + c + ", " + title);
  }
}
