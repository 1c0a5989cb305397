/**
 * The older `Conversation_Constructor`: one object for many pages. It keeps, per page id, the
 * page state, the deleted-comment trie and the latest cleaned text; each revision is cleaned,
 * diffed against the latest text of its page, run through the older `insert`, and its actions
 * are stamped with the page. Comment removals of more than `Threshold` tokens go into the
 * page's trie.
 */
module LegacyConstructor {
  import opened Wrappers
  import opened PageState
  import opened PostProcessing
  import LegacyInsert

  /** Removals of at most this many tokens are not recorded for restoration. */
  const Threshold := 3

  /**
   * `page_creation`: the page of the revision, whose only offset, 0, is the boundary. The
   * original reads the first diff operation first, so an empty diff is an IndexError.
   */
  function PageCreation(rev: Revision): (r: Result<Page, string>)
    ensures r.Ok? <==> |rev.diff| > 0
    ensures r.Ok? ==> r.value == NewPage(rev.pageId, rev.pageTitle)
    ensures r.Ok? ==> WellFormed(r.value.actions) && LegacyInsert.EndChecked(r.value.actions)
  {
    if |rev.diff| == 0 then Err("IndexError: list index out of range")
    else
      NewPageWellFormed(rev.pageId, rev.pageTitle);
      LegacyInsert.WellFormedIsEndChecked(NewPage(rev.pageId, rev.pageTitle).actions);
      Ok(NewPage(rev.pageId, rev.pageTitle))
  }

  /** The latest text of a page; the original's default dictionary reads a missing one as "". */
  function Latest(latest: map<string, string>, pid: string): (r: string)
    ensures pid in latest ==> r == latest[pid]
    ensures pid !in latest ==> r == ""
  {
    if pid in latest then latest[pid] else ""
  }

  class Constructor {
    var pages: map<string, Page>
    var previousComments: map<string, Trie>
    var latestContent: map<string, string>

    /** Every page that has a state also has a deleted-comment trie. */
    predicate Valid()
      reads this
    {
      pages.Keys <= previousComments.Keys
    }

    /** A constructor that has seen no page. */
    constructor()
      ensures pages == map[] && previousComments == map[] && latestContent == map[]
      ensures Valid()
    {
      pages := map[];
      previousComments := map[];
      latestContent := map[];
    }

    /**
     * The loop at the end of `process`: every action is stamped with the page, and each
     * removal of more than `Threshold` tokens is added to the page's trie, in order.
     */
    method RecordAll(actions: seq<Action>, pid: string, pageTitle: string) returns (done: seq<Action>)
      requires pid in previousComments
      modifies this
      ensures |done| == |actions| && forall i :: 0 <= i < |actions| ==> done[i] == Stamp(actions[i], pid, pageTitle)
      ensures previousComments == old(previousComments)[pid := old(previousComments)[pid] + TrieEntries(done, Threshold)]
      ensures pages == old(pages) && latestContent == old(latestContent)
    {
      done := [];
      ghost var start := previousComments[pid];
      assert start + TrieEntries(done, Threshold) == start;
      assert previousComments == old(previousComments)[pid := start];
      for i := 0 to |actions|
        invariant |done| == i && forall j :: 0 <= j < i ==> done[j] == Stamp(actions[j], pid, pageTitle)
        invariant previousComments == old(previousComments)[pid := start + TrieEntries(done, Threshold)]
        invariant pages == old(pages) && latestContent == old(latestContent)
      {
        var action := Stamp(actions[i], pid, pageTitle);
        TrieEntriesAppend(done, action, Threshold);
        if RemovalAbove(action, Threshold) {
          assert start + TrieEntries(done + [action], Threshold) == start + TrieEntries(done, Threshold) + [TrieEntry(action)];
          previousComments := previousComments[pid := previousComments[pid] + [TrieEntry(action)]];
          assert previousComments == old(previousComments)[pid := start + TrieEntries(done + [action], Threshold)];
        } else {
          assert TrieEntries(done + [action], Threshold) == TrieEntries(done, Threshold) + [];
          assert TrieEntries(done + [action], Threshold) == TrieEntries(done, Threshold);
        }
        done := done + [action];
      }
    }

    /**
     * The first steps of `process`: the text is cleaned and diffed against the latest text of
     * the page (a missing one reads as "" and is stored so), a page seen for the first time gets
     * a new trie and is created, and the cleaned text becomes the latest. Err is the IndexError
     * of `page_creation`, raised before the latest text is replaced.
     */
    method Open(rev: RawRevision, prep: Preparation) returns (r: Result<(Revision, Page), string>)
      requires Valid()
      modifies this
      ensures Valid() && pages == old(pages)
      ensures rev.pageId in previousComments && rev.pageId in latestContent
      ensures previousComments - {rev.pageId} == old(previousComments) - {rev.pageId}
      ensures latestContent - {rev.pageId} == old(latestContent) - {rev.pageId}
      ensures r.Err? <==>
        rev.pageId !in old(pages) && |prep.diff(Latest(old(latestContent), rev.pageId), prep.clean(rev.text))| == 0
      ensures r.Err? ==> previousComments[rev.pageId] == [] && latestContent[rev.pageId] == ""
      ensures r.Ok? ==> latestContent[rev.pageId] == prep.clean(rev.text)
      ensures r.Ok? ==> (r.value.0 ==
        Revision(rev.revId, rev.pageId, rev.pageTitle, prep.clean(rev.text),
                 prep.diff(Latest(old(latestContent), rev.pageId), prep.clean(rev.text))))
      ensures rev.pageId in old(pages) ==>
        previousComments == old(previousComments) && r.Ok? && r.value.1 == old(pages)[rev.pageId]
      ensures rev.pageId !in old(pages) ==>
        previousComments[rev.pageId] == [] && (r.Ok? ==> r.value.1 == NewPage(rev.pageId, rev.pageTitle))
    {
      var pid := rev.pageId;
      var text := prep.clean(rev.text);
      // the default dictionary stores "" for a page it has not seen; a new page's text is
      // reset to "" as well, so the stored text is "" until it is replaced below
      var revision := Revision(rev.revId, pid, rev.pageTitle, text, prep.diff(Latest(latestContent, pid), text));
      var oldPage;
      if pid !in pages {
        previousComments := previousComments[pid := []];
        var created := PageCreation(revision);
        if created.Err? {
          latestContent := latestContent[pid := ""];
          return Err(created.error);
        }
        oldPage := created.value;
      } else {
        oldPage := pages[pid];
      }
      latestContent := latestContent[pid := text];
      return Ok((revision, oldPage));
    }

    /**
     * `process`: one revision of any page. The revision is prepared as `Open` says; the older
     * `insert` computes the actions and the new page state, which is stored; the actions are
     * stamped and long removals recorded. Only the revision's page changes. On Err the state
     * is left as the original leaves it when it raises.
     */
    method Process(rev: RawRevision, prep: Preparation, h: Helpers) returns (r: Result<seq<Action>, string>)
      requires Valid()
      modifies this
      ensures Valid()
      ensures rev.pageId in previousComments && rev.pageId in latestContent
      ensures pages - {rev.pageId} == old(pages) - {rev.pageId}
      ensures previousComments - {rev.pageId} == old(previousComments) - {rev.pageId}
      ensures latestContent - {rev.pageId} == old(latestContent) - {rev.pageId}
      ensures rev.pageId !in old(pages) && |prep.diff(Latest(old(latestContent), rev.pageId), prep.clean(rev.text))| == 0 ==>
        && r.Err? && pages == old(pages)
        && previousComments[rev.pageId] == [] && latestContent[rev.pageId] == ""
      ensures r.Ok? ==> latestContent[rev.pageId] == prep.clean(rev.text)
      ensures r.Ok? ==>
        && rev.pageId in pages && LegacyInsert.EndChecked(pages[rev.pageId].actions)
        && pages[rev.pageId].pageId == rev.pageId && pages[rev.pageId].pageTitle == rev.pageTitle
      ensures r.Ok? ==> (previousComments[rev.pageId] ==
        (if rev.pageId in old(pages) then old(previousComments)[rev.pageId] else []) + TrieEntries(r.value, Threshold))
      ensures r.Ok? ==> forall i :: 0 <= i < |r.value| ==>
        r.value[i].pageId == Some(rev.pageId) && r.value[i].pageTitle == Some(rev.pageTitle)
    {
      var prepared := Open(rev, prep);
      if prepared.Err? {
        return Err(prepared.error);
      }
      var (revision, oldPage) := prepared.value;
      var pid := rev.pageId;
      var inserted := LegacyInsert.Insert(revision, oldPage, previousComments[pid], h);
      if inserted.Err? {
        return Err(inserted.error);
      }
      pages := pages[pid := inserted.value.1];
      var done := RecordAll(inserted.value.0, pid, rev.pageTitle);
      return Ok(done);
    }
  }
}
