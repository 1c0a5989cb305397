/**
 * The current `Conversation_Constructor`: it keeps the state of one page across revisions (the
 * page state, the conversation of each live action, the authors of each live action and the
 * deleted comments that may be restored), runs `insert` on each revision and threads
 * conversation ids and authorship through the actions it returns.
 */
module ConversationConstructor {
  import opened Wrappers
  import opened PageState
  import opened PostProcessing
  import ConversationInsert

  /** Deleted comments of at most this many tokens are not recorded for restoration. */
  const Threshold := 10

  /** What `process` returns beside the actions: the state stored for the revision. */
  datatype PageStateRecord = PageStateRecord(
    revId: int, timestamp: string, pageId: string, pageState: Page,
    deletedComments: seq<(string, Slot)>, conversationIds: map<string, string>,
    authors: map<string, set<Author>>)

  /** The kinds of action that bring new content: they start or join a conversation by their reply. */
  predicate BringsContent(k: ActionKind) {
    k == CommentAdding || k == CommentModification || k == SectionCreation
  }

  /** `d[key]` for a key that is an action id; KeyError otherwise. */
  function Lookup<V>(d: map<string, V>, key: ActionRef): (r: Result<V, string>)
    ensures r.Ok? <==> key.Id? && key.name in d
    ensures r.Ok? ==> r.value == d[key.name]
  {
    if key.Id? && key.name in d then Ok(d[key.name]) else Err("KeyError")
  }

  /**
   * The conversation of an action. A comment that replies to nothing starts its own
   * conversation; one that replies joins the conversation of the comment it replies to (this
   * also holds for a rearranged comment, whose reply may have changed). A removal or a
   * restoration stays in the conversation of the comment it acts on.
   */
  function ConversationOf(a: Action, ids: map<string, string>): (r: Result<string, string>)
    ensures (BringsContent(a.kind) || a.kind == CommentRearrangement) && a.replyToId == Null ==> r == Ok(a.id)
    ensures (BringsContent(a.kind) || a.kind == CommentRearrangement) && a.replyToId != Null ==>
      (r.Ok? <==> a.replyToId.Id? && a.replyToId.name in ids) && (r.Ok? ==> r.value == ids[a.replyToId.name])
    ensures (a.kind == CommentRemoval || a.kind == CommentRestoration) ==>
      (r.Ok? <==> a.parentId.Id? && a.parentId.name in ids) && (r.Ok? ==> r.value == ids[a.parentId.name])
  {
    if BringsContent(a.kind) || a.kind == CommentRearrangement then
      if a.replyToId == Null then Ok(a.id) else Lookup(ids, a.replyToId)
    else Lookup(ids, a.parentId)
  }

  /**
   * The authors of an action. A new comment or section is written by its user alone; a
   * modification is written by the authors of the comment it modifies and the modifier; any
   * other action keeps the authors of the comment it acts on.
   */
  function AuthorsOf(a: Action, authorship: map<string, set<Author>>): (r: Result<set<Author>, string>)
    ensures a.kind == CommentAdding || a.kind == SectionCreation ==> r == Ok({(a.userId, a.userText)})
    ensures a.kind == CommentModification ==> (r.Ok? <==> a.parentId.Id? && a.parentId.name in authorship)
    ensures a.kind == CommentModification && r.Ok? ==>
      var before := authorship[a.parentId.name];
      before <= r.value && (a.userId, a.userText) in r.value && r.value - before <= {(a.userId, a.userText)}
    ensures !BringsContent(a.kind) ==>
      (r.Ok? <==> a.parentId.Id? && a.parentId.name in authorship) && (r.Ok? ==> r.value == authorship[a.parentId.name])
  {
    if a.kind == CommentModification then
      match Lookup(authorship, a.parentId)
      case Ok(before) => Ok(before + {(a.userId, a.userText)})
      case Err(e) => Err(e)
    else if BringsContent(a.kind) then Ok({(a.userId, a.userText)})
    else Lookup(authorship, a.parentId)
  }

  /** The entries of `d` whose key is one of the ids in `keep`. */
  function Pruned<V>(d: map<string, V>, keep: set<ActionRef>): (r: map<string, V>)
    ensures forall k :: k in r <==> k in d && Id(k) in keep
    ensures forall k :: k in r ==> r[k] == d[k]
  {
    map k | k in d && Id(k) in keep :: d[k]
  }

  /** Pruning twice keeps what pruning once keeps. */
  lemma PrunedIdempotent<V>(d: map<string, V>, keep: set<ActionRef>)
    ensures Pruned(Pruned(d, keep), keep) == Pruned(d, keep)
  {
  }

  /** The ids of the actions on a page state. */
  function AliveIds(actions: Actions): set<ActionRef> {
    set o | o in actions :: actions[o].id
  }

  /**
   * `a` is the post-processed `orig`: the same action, stamped with the page, with its
   * conversation and authors filled in.
   */
  predicate PostProcessed(a: Action, orig: Action, rev: RawRevision) {
    && a.id == orig.id && a.kind == orig.kind && a.content == orig.content
    && a.parentId == orig.parentId && a.replyToId == orig.replyToId
    && a.userId == orig.userId && a.userText == orig.userText
    && a.pageId == Some(rev.pageId) && a.pageTitle == Some(rev.pageTitle)
    && a.conversationId.Some? && a.authors.Some?
  }

  lemma PostProcessedAppend(done: seq<Action>, actions: seq<Action>, a: Action, rev: RawRevision)
    requires |done| < |actions|
    requires forall j :: 0 <= j < |done| ==> PostProcessed(done[j], actions[j], rev)
    requires PostProcessed(a, actions[|done|], rev)
    ensures forall j :: 0 <= j < |done| + 1 ==> PostProcessed((done + [a])[j], actions[j], rev)
  {
  }

  /** The conversation and authorship maps of the post-processing. */
  type Maps = (map<string, string>, map<string, set<Author>>)

  /**
   * The map updates of post-processing one action: its conversation and its authors recorded
   * under its id. A new-content action looks up its conversation first, any other its authors
   * first; either lookup can fail with the KeyError.
   */
  function PostStep(a: Action, m: Maps): (r: Result<Maps, string>)
    ensures r.Ok? <==> ConversationOf(a, m.0).Ok? && AuthorsOf(a, m.1).Ok?
  {
    if BringsContent(a.kind) then
      match ConversationOf(a, m.0)
      case Err(e) => Err(e)
      case Ok(c) =>
        match AuthorsOf(a, m.1)
        case Err(e) => Err(e)
        case Ok(au) => Ok((m.0[a.id := c], m.1[a.id := au]))
    else
      match AuthorsOf(a, m.1)
      case Err(e) => Err(e)
      case Ok(au) =>
        match ConversationOf(a, m.0)
        case Err(e) => Err(e)
        case Ok(c) => Ok((m.0[a.id := c], m.1[a.id := au]))
  }

  /** A successful step records exactly the action's conversation and authors under its id. */
  lemma PostStepValue(a: Action, m: Maps)
    ensures ConversationOf(a, m.0).Ok? && AuthorsOf(a, m.1).Ok? ==>
      PostStep(a, m) == Ok((m.0[a.id := ConversationOf(a, m.0).value], m.1[a.id := AuthorsOf(a, m.1).value]))
  {
  }

  /** A successful step adds the action's id to both maps and keeps every other entry. */
  lemma PostStepKeys(a: Action, m: Maps)
    requires PostStep(a, m).Ok?
    ensures var r := PostStep(a, m).value;
      && r.0.Keys == m.0.Keys + {a.id} && r.1.Keys == m.1.Keys + {a.id}
      && (forall k :: k in m.0 && k != a.id ==> r.0[k] == m.0[k])
      && (forall k :: k in m.1 && k != a.id ==> r.1[k] == m.1[k])
  {
    PostStepValue(a, m);
  }

  /** Two actions that agree on what post-processing reads update the maps alike. */
  lemma PostStepSameFields(a: Action, b: Action, m: Maps)
    requires a.id == b.id && a.kind == b.kind && a.parentId == b.parentId && a.replyToId == b.replyToId
    requires a.userId == b.userId && a.userText == b.userText
    ensures PostStep(a, m) == PostStep(b, m)
  {
  }

  /** The maps after post-processing the actions in order, or the first error. */
  function PostMaps(actions: seq<Action>, m: Maps): Result<Maps, string>
    decreases |actions|
  {
    if |actions| == 0 then Ok(m)
    else
      match PostMaps(actions[..|actions| - 1], m)
      case Err(e) => Err(e)
      case Ok(prev) => PostStep(actions[|actions| - 1], prev)
  }

  /** Once a prefix of the actions fails, the whole post-processing fails. */
  lemma {:induction false} PostMapsPrefixErr(actions: seq<Action>, m: Maps, i: nat)
    requires i <= |actions| && PostMaps(actions[..i], m).Err?
    ensures PostMaps(actions, m).Err?
    decreases |actions|
  {
    if i < |actions| {
      var init := actions[..|actions| - 1];
      assert init[..i] == actions[..i];
      PostMapsPrefixErr(init, m, i);
    } else {
      assert actions[..i] == actions;
    }
  }

  /**
   * After a successful post-processing every action's id has a conversation and authors, and
   * every earlier entry is kept unless one of the actions overwrote it.
   */
  lemma {:induction false} PostMapsKeys(actions: seq<Action>, m: Maps)
    requires PostMaps(actions, m).Ok?
    ensures var r := PostMaps(actions, m).value;
      && (forall i :: 0 <= i < |actions| ==> actions[i].id in r.0 && actions[i].id in r.1)
      && m.0.Keys <= r.0.Keys && m.1.Keys <= r.1.Keys
      && (forall k :: k in m.0 && (forall i :: 0 <= i < |actions| ==> actions[i].id != k) ==> r.0[k] == m.0[k])
      && (forall k :: k in m.1 && (forall i :: 0 <= i < |actions| ==> actions[i].id != k) ==> r.1[k] == m.1[k])
    decreases |actions|
  {
    if |actions| > 0 {
      var init := actions[..|actions| - 1];
      PostMapsKeys(init, m);
      PostStepKeys(actions[|actions| - 1], PostMaps(init, m).value);
      assert forall i :: 0 <= i < |init| ==> init[i] == actions[i];
    }
  }

  /** The maps depend only on the fields post-processing reads, which it leaves as they were. */
  lemma {:induction false} PostMapsProcessed(done: seq<Action>, actions: seq<Action>, rev: RawRevision, m: Maps)
    requires |done| == |actions|
    requires forall i :: 0 <= i < |actions| ==> PostProcessed(done[i], actions[i], rev)
    ensures PostMaps(done, m) == PostMaps(actions, m)
    decreases |actions|
  {
    if |actions| > 0 {
      var n := |actions| - 1;
      PostMapsProcessed(done[..n], actions[..n], rev, m);
      var prev := PostMaps(actions[..n], m);
      if prev.Ok? {
        PostStepSameFields(done[n], actions[n], prev.value);
      }
    }
  }

  class Constructor {
    var page: Page
    var conversationIds: map<string, string>
    var authorship: map<string, set<Author>>
    var deletedComments: seq<(string, Slot)>
    var deletedRecords: set<ActionRef>
    var latestContent: string
    var revIds: seq<int>
    var notExisted: bool
    var previousComments: Trie

    /** A constructor that has seen no revision: no page yet, nothing recorded. */
    constructor()
      ensures page == Page("", "", map[]) && notExisted
      ensures conversationIds == map[] && authorship == map[]
      ensures deletedComments == [] && deletedRecords == {} && previousComments == []
      ensures latestContent == "" && revIds == []
    {
      page := Page("", "", map[]);
      conversationIds := map[];
      authorship := map[];
      deletedComments := [];
      deletedRecords := {};
      latestContent := "";
      revIds := [];
      notExisted := true;
      previousComments := [];
    }

    /** `page_creation`: the empty page of the revision's page, whose only offset is the boundary. */
    method PageCreation(rev: RawRevision) returns (p: Page)
      modifies this
      ensures p.actions == map[0 := Boundary] && WellFormed(p.actions)
      ensures p.pageId == rev.pageId && p.pageTitle == rev.pageTitle
      ensures !notExisted
      ensures page == old(page) && conversationIds == old(conversationIds) && authorship == old(authorship)
      ensures deletedComments == old(deletedComments) && deletedRecords == old(deletedRecords)
      ensures latestContent == old(latestContent) && revIds == old(revIds) && previousComments == old(previousComments)
    {
      p := NewPage(rev.pageId, rev.pageTitle);
      NewPageWellFormed(rev.pageId, rev.pageTitle);
      notExisted := false;
    }

    /** The ids kept by `clean_dict`: those alive on the page state and those recorded as deleted. */
    function Keep(): set<ActionRef>
      reads this
    {
      AliveIds(page.actions) + deletedRecords
    }

    /**
     * `clean_dict`: only the entries of actions still alive are kept. An action is alive when
     * it is on the page state or when it was deleted and may be restored.
     */
    method CleanDict<V>(d: map<string, V>) returns (r: map<string, V>)
      ensures r == Pruned(d, Keep())
    {
      var keys := d.Keys;
      r := d;
      while keys != {}
        invariant keys <= d.Keys
        invariant forall k :: k in r <==> k in d && (k in keys || Id(k) in Keep())
        invariant forall k :: k in r ==> r[k] == d[k]
        decreases |keys|
      {
        var k :| k in keys;
        if !(Id(k) in AliveIds(page.actions) || Id(k) in deletedRecords) {
          r := r - {k};
        }
        keys := keys - {k};
      }
    }

    /**
     * The post-processing of one action: its conversation and authors are recorded under its
     * id and copied into it, it is stamped with the page, and a removal of more than
     * `Threshold` tokens is recorded as a deleted comment. Err is the KeyError of a reply or
     * parent whose conversation or authors are not recorded.
     */
    method PostProcess(a: Action, rev: RawRevision) returns (r: Result<Action, string>)
      modifies this
      ensures page == old(page) && latestContent == old(latestContent) && revIds == old(revIds) && notExisted == old(notExisted)
      ensures r.Ok? <==> ConversationOf(a, old(conversationIds)).Ok? && AuthorsOf(a, old(authorship)).Ok?
      ensures r.Ok? ==>
        && conversationIds == old(conversationIds)[a.id := ConversationOf(a, old(conversationIds)).value]
        && authorship == old(authorship)[a.id := AuthorsOf(a, old(authorship)).value]
        && r.value == Stamp(a, rev.pageId, rev.pageTitle).(conversationId := Some(conversationIds[a.id]), authors := Some(authorship[a.id]))
      ensures r.Ok? && RemovalAbove(a, Threshold) ==>
        && deletedComments == old(deletedComments) + [TrieEntry(a)]
        && deletedRecords == old(deletedRecords) + {a.parentId}
        && previousComments == old(previousComments) + [TrieEntry(a)]
      ensures r.Ok? && !RemovalAbove(a, Threshold) ==>
        deletedComments == old(deletedComments) && deletedRecords == old(deletedRecords) && previousComments == old(previousComments)
      ensures r.Ok? ==> PostStep(a, (old(conversationIds), old(authorship))) == Ok((conversationIds, authorship))
    {
      PostStepValue(a, (conversationIds, authorship));
      if BringsContent(a.kind) {
        var conversation := ConversationOf(a, conversationIds);
        if conversation.Err? {
          return Err(conversation.error);
        }
        conversationIds := conversationIds[a.id := conversation.value];
        var authors := AuthorsOf(a, authorship);
        if authors.Err? {
          return Err(authors.error);
        }
        authorship := authorship[a.id := authors.value];
      } else {
        var authors := AuthorsOf(a, authorship);
        if authors.Err? {
          return Err(authors.error);
        }
        authorship := authorship[a.id := authors.value];
        var conversation := ConversationOf(a, conversationIds);
        if conversation.Err? {
          return Err(conversation.error);
        }
        conversationIds := conversationIds[a.id := conversation.value];
      }
      var done := Stamp(a, rev.pageId, rev.pageTitle).(conversationId := Some(conversationIds[a.id]), authors := Some(authorship[a.id]));
      Record(a);
      return Ok(done);
    }

    /** A removal of more than `Threshold` tokens is recorded as a deleted comment that may be restored. */
    method Record(a: Action)
      modifies this
      ensures RemovalAbove(a, Threshold) ==>
        && deletedComments == old(deletedComments) + [TrieEntry(a)]
        && deletedRecords == old(deletedRecords) + {a.parentId}
        && previousComments == old(previousComments) + [TrieEntry(a)]
      ensures !RemovalAbove(a, Threshold) ==>
        deletedComments == old(deletedComments) && deletedRecords == old(deletedRecords) && previousComments == old(previousComments)
      ensures page == old(page) && conversationIds == old(conversationIds) && authorship == old(authorship)
      ensures latestContent == old(latestContent) && revIds == old(revIds) && notExisted == old(notExisted)
    {
      if RemovalAbove(a, Threshold) {
        var entry := TrieEntry(a);
        deletedComments := deletedComments + [entry];
        deletedRecords := deletedRecords + {a.parentId};
        previousComments := previousComments + [entry];
      }
    }

    /** One turn of the post-processing loop, stated as the fold over the maps and the recorded entries. */
    method PostProcessNext(a: Action, rev: RawRevision) returns (r: Result<Action, string>)
      modifies this
      ensures page == old(page) && latestContent == old(latestContent) && revIds == old(revIds) && notExisted == old(notExisted)
      ensures r.Ok? <==> PostStep(a, (old(conversationIds), old(authorship))).Ok?
      ensures r.Ok? ==> PostStep(a, (old(conversationIds), old(authorship))) == Ok((conversationIds, authorship))
      ensures r.Ok? ==> PostProcessed(r.value, a, rev)
      ensures r.Ok? ==> deletedComments == old(deletedComments) + (if RemovalAbove(r.value, Threshold) then [TrieEntry(r.value)] else [])
      ensures r.Ok? ==> previousComments == old(previousComments) + (if RemovalAbove(r.value, Threshold) then [TrieEntry(r.value)] else [])
      ensures r.Ok? ==> deletedRecords == old(deletedRecords) + (if RemovalAbove(r.value, Threshold) then {r.value.parentId} else {})
    {
      r := PostProcess(a, rev);
    }

    /** The post-processing loop of `process`: every action in order, stopping at the first error. */
    method PostProcessAll(actions: seq<Action>, rev: RawRevision) returns (r: Result<seq<Action>, string>)
      modifies this
      ensures page == old(page) && latestContent == old(latestContent) && revIds == old(revIds) && notExisted == old(notExisted)
      ensures r.Ok? ==> |r.value| == |actions|
      ensures r.Ok? ==> forall i :: 0 <= i < |actions| ==> PostProcessed(r.value[i], actions[i], rev)
      ensures r.Ok? ==> deletedComments == old(deletedComments) + TrieEntries(r.value, Threshold)
      ensures r.Ok? ==> previousComments == old(previousComments) + TrieEntries(r.value, Threshold)
      ensures r.Ok? ==> deletedRecords == old(deletedRecords) + DeletedParents(r.value, Threshold)
      ensures r.Ok? <==> PostMaps(actions, (old(conversationIds), old(authorship))).Ok?
      ensures r.Ok? ==> PostMaps(actions, (old(conversationIds), old(authorship))) == Ok((conversationIds, authorship))
    {
      var done: seq<Action> := [];
      ghost var dc0, pc0, dr0 := deletedComments, previousComments, deletedRecords;
      for i := 0 to |actions|
        invariant |done| == i
        invariant page == old(page) && latestContent == old(latestContent) && revIds == old(revIds) && notExisted == old(notExisted)
        invariant deletedComments == dc0 + TrieEntries(done, Threshold)
        invariant previousComments == pc0 + TrieEntries(done, Threshold)
        invariant deletedRecords == dr0 + DeletedParents(done, Threshold)
        invariant forall j :: 0 <= j < i ==> PostProcessed(done[j], actions[j], rev)
        invariant PostMaps(actions[..i], (old(conversationIds), old(authorship))) == Ok((conversationIds, authorship))
      {
        assert actions[..i + 1][..i] == actions[..i];
        ghost var dc, pc, dr := deletedComments, previousComments, deletedRecords;
        var p := PostProcessNext(actions[i], rev);
        if p.Err? {
          PostMapsPrefixErr(actions, (old(conversationIds), old(authorship)), i + 1);
          return Err(p.error);
        }
        TrieEntriesExtend(dc0, dc, deletedComments, done, p.value, Threshold);
        TrieEntriesExtend(pc0, pc, previousComments, done, p.value, Threshold);
        DeletedParentsExtend(dr0, dr, deletedRecords, done, p.value, Threshold);
        PostProcessedAppend(done, actions, p.value, rev);
        done := done + [p.value];
      }
      assert actions[..|actions|] == actions;
      return Ok(done);
    }

    /**
     * The first steps of `process`: the revision id is recorded, the text cleaned and diffed
     * against the previous content, which it then replaces. The first revision creates the page
     * and a new deleted-comment trie; later ones continue from the stored page state.
     */
    method Prepare(rev: RawRevision, prep: Preparation) returns (revision: Revision, oldPage: Page)
      modifies this
      ensures revIds == old(revIds) + [rev.revId]
      ensures latestContent == prep.clean(rev.text) && !notExisted
      ensures revision == Revision(rev.revId, rev.pageId, rev.pageTitle, latestContent, prep.diff(old(latestContent), latestContent))
      ensures old(notExisted) ==> oldPage == NewPage(rev.pageId, rev.pageTitle) && previousComments == []
      ensures !old(notExisted) ==> oldPage == old(page) && previousComments == old(previousComments)
      ensures page == old(page) && conversationIds == old(conversationIds) && authorship == old(authorship)
      ensures deletedComments == old(deletedComments) && deletedRecords == old(deletedRecords)
    {
      revIds := revIds + [rev.revId];
      var text := prep.clean(rev.text);
      var diff := prep.diff(latestContent, text);
      if notExisted {
        previousComments := [];
        oldPage := PageCreation(rev);
      } else {
        oldPage := page;
      }
      latestContent := text;
      revision := Revision(rev.revId, rev.pageId, rev.pageTitle, text, diff);
    }

    /**
     * `process`: one revision of the page. The revision is cleaned and diffed against the
     * previous content; the first revision creates the page and a new deleted-comment trie;
     * `insert` computes the actions and the new page state; every action is post-processed;
     * the conversation and authorship maps are pruned to the live actions. Err is an exception
     * of the original, from `insert` or from the post-processing.
     */
    method Process(rev: RawRevision, prep: Preparation, h: Helpers)
      returns (r: Result<(PageStateRecord, seq<Action>), string>)
      modifies this
      ensures revIds == old(revIds) + [rev.revId]
      ensures latestContent == prep.clean(rev.text) && !notExisted
      ensures r.Ok? ==> WellFormed(page.actions) && page.pageId == rev.pageId && page.pageTitle == rev.pageTitle
      ensures r.Ok? ==>
        r.value.0 == PageStateRecord(rev.revId, rev.timestamp, rev.pageId, page, deletedComments, conversationIds, authorship)
      ensures r.Ok? ==> forall i :: 0 <= i < |r.value.1| ==>
        var a := r.value.1[i];
        a.pageId == Some(rev.pageId) && a.pageTitle == Some(rev.pageTitle) && a.conversationId.Some? && a.authors.Some?
      ensures r.Ok? ==> ConversationInsert.IdOrdered(r.value.1)
      ensures r.Ok? ==> deletedComments == old(deletedComments) + TrieEntries(r.value.1, Threshold)
      ensures r.Ok? ==> previousComments == (if old(notExisted) then [] else old(previousComments)) + TrieEntries(r.value.1, Threshold)
      ensures r.Ok? ==> deletedRecords == old(deletedRecords) + DeletedParents(r.value.1, Threshold)
      ensures r.Ok? ==> forall k :: k in conversationIds ==> Id(k) in Keep()
      ensures r.Ok? ==> forall k :: k in authorship ==> Id(k) in Keep()
      ensures r.Ok? ==> PostMaps(r.value.1, (old(conversationIds), old(authorship))).Ok?
      ensures r.Ok? ==>
        var m := PostMaps(r.value.1, (old(conversationIds), old(authorship))).value;
        conversationIds == Pruned(m.0, Keep()) && authorship == Pruned(m.1, Keep())
    {
      var revision, oldPage := Prepare(rev, prep);
      var inserted := ConversationInsert.Insert(revision, oldPage, previousComments, h);
      if inserted.Err? {
        return Err(inserted.error);
      }
      page := inserted.value.1;
      var done := PostProcessAll(inserted.value.0, rev);
      if done.Err? {
        return Err(done.error);
      }
      ConversationInsert.IdOrderedSameIds(inserted.value.0, done.value);
      PostMapsProcessed(done.value, inserted.value.0, rev, (old(conversationIds), old(authorship)));
      conversationIds := CleanDict(conversationIds);
      authorship := CleanDict(authorship);
      return Ok((PageStateRecord(rev.revId, rev.timestamp, rev.pageId, page, deletedComments, conversationIds, authorship), done.value));
    }
  }
}
