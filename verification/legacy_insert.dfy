/**
 * `insert` of the older conversation constructor. It runs the same phases as the current one,
 * with these differences: an insertion opens a line when it starts with a line break, sits at
 * old offset 0 or follows a line break in the new text (there is no line-end test); every
 * deletion piece that is not a modification is a removal at once; every removal, however short,
 * is searched for in the additions and becomes a rearrangement action when found; restorations
 * are not cut at the end of their addition; only the boundary checks are made; and the actions
 * are returned in the order they were produced.
 */
module LegacyInsert {
  import opened Wrappers
  import opened Text
  import opened PageState
  import opened InsertPhases
  import Deletion
  import ConversationInsert

  // ---------------------------------------------------------------------
  // Scanning the diff

  /**
   * The comment-addition test of the older constructor: the insertion starts at an old action
   * boundary and starts with a line break, sits at old offset 0, or follows a line break in the
   * new text, the token before it read with Python's indexing. Err is the IndexError of the
   * empty insertion, or of a token index outside the new text.
   */
  function IsCommentAddition(op: DiffOp, olds: seq<int>, revText: seq<Token>): (r: Result<bool, string>)
    ensures op.a1 !in olds ==> r == Ok(false)
    ensures r.Err? <==>
      op.a1 in olds && (|op.tokens| == 0 || (!op.tokens[0].isBreak && op.a1 != 0 && PyIndex(revText, op.b1 - 1).None?))
    ensures r == Ok(true) <==>
      && op.a1 in olds && |op.tokens| > 0
      && (|| op.tokens[0].isBreak || op.a1 == 0
          || (PyIndex(revText, op.b1 - 1).Some? && PyIndex(revText, op.b1 - 1).value.isBreak))
  {
    if op.a1 !in olds then Ok(false)
    else
      match PyIndex(op.tokens, 0)
      case None => Err("IndexError: list index out of range")
      case Some(first) =>
        if first.isBreak || op.a1 == 0 then Ok(true)
        else
          match PyIndex(revText, op.b1 - 1)
          case None => Err("IndexError: list index out of range")
          case Some(t) => Ok(t.isBreak)
  }

  /**
   * An insertion at the very start of the new text, but not at old offset 0, is judged by
   * the LAST token of the new text: Python's index -1 wraps round. Two texts that differ only in
   * their last token classify the same insertion differently.
   */
  lemma StartOfTextReadsLastToken()
    ensures var op := DiffOp(OpName.Insert, 3, 3, 0, 1, [Token("x", false)]);
      && IsCommentAddition(op, [0, 3], [Token("x", false), Token("y", false)]) == Ok(false)
      && IsCommentAddition(op, [0, 3], [Token("x", false), Token("\n", true)]) == Ok(true)
  {
    var op := DiffOp(OpName.Insert, 3, 3, 0, 1, [Token("x", false)]);
    assert 3 in [0, 3];
    assert PyIndex([Token("x", false), Token("y", false)], -1) == Some(Token("y", false));
    assert PyIndex([Token("x", false), Token("\n", true)], -1) == Some(Token("\n", true));
  }

  /** `a` is one of the sections of insertion `op`, which passed the older comment-addition test. */
  predicate AdditionFrom(a: Span, op: DiffOp, olds: seq<int>, revText: seq<Token>, h: Helpers) {
    && op.name.Insert?
    && IsCommentAddition(op, olds, revText) == Ok(true)
    && a in h.divide(op, TokensText(op.tokens))
  }

  /** The older comment-addition test against the old offsets and the new text. */
  function AdditionTest(olds: seq<int>, revText: seq<Token>): DiffOp -> Result<bool, string> {
    op => IsCommentAddition(op, olds, revText)
  }

  /**
   * The scan of the diff in the older constructor. Additions come from insertions passing the
   * older test; every deletion piece that is not a modification is a removal of its action.
   */
  method Scan(rev: Revision, olds: seq<int>, page: Actions, revText: seq<Token>, h: Helpers)
    returns (r: Result<ConversationInsert.Scanned, string>)
    ensures r.Ok? ==> ConversationInsert.NoDup(r.value.modified)
    ensures r.Ok? ==> forall a :: a in r.value.additions ==>
      exists j :: 0 <= j < |rev.diff| && AdditionFrom(a, rev.diff[j], olds, revText, h)
    ensures r.Ok? ==> forall c :: c in r.value.candidates ==>
      exists j :: 0 <= j < |rev.diff| && ConversationInsert.Candidate(c, rev.diff[j], olds, page)
    ensures (forall j :: 0 <= j < |rev.diff| ==> rev.diff[j].name.Equal?) ==>
      r == Ok(ConversationInsert.Scanned([], [], []))
    ensures r == ConversationInsert.ScanOf(rev.diff, AdditionTest(olds, revText), false, olds, page, h)
  {
    var additions: seq<Span> := [];
    var modified: seq<int> := [];
    var candidates: seq<(int, Removal)> := [];
    ghost var test := AdditionTest(olds, revText);
    for i := 0 to |rev.diff|
      invariant ConversationInsert.ScanOf(rev.diff, test, false, olds, page, h) ==
        ConversationInsert.ScanFrom(rev.diff, test, false, olds, page, h, i, ConversationInsert.Scanned(additions, modified, candidates))
      invariant ConversationInsert.NoDup(modified)
      invariant forall a :: a in additions ==> exists j :: 0 <= j < i && AdditionFrom(a, rev.diff[j], olds, revText, h)
      invariant forall c :: c in candidates ==>
        exists j :: 0 <= j < i && ConversationInsert.Candidate(c, rev.diff[j], olds, page)
      invariant (forall j :: 0 <= j < i ==> rev.diff[j].name.Equal?) ==> additions == [] && modified == [] && candidates == []
    {
      var op := rev.diff[i];
      if op.name.Insert? {
        var passes := IsCommentAddition(op, olds, revText);
        assert test(op) == passes;
        if passes.Err? {
          return Err(passes.error);
        }
        if passes.value {
          additions := additions + h.divide(op, TokensText(op.tokens));
        } else {
          modified := ConversationInsert.Mark(modified, h.actionStart(olds, op.a1));
        }
      } else if op.name.Delete? {
        var split := Deletion.SplitDeletion(op, olds);
        if split.Err? {
          return Err(split.error);
        }
        var classified := ConversationInsert.ClassifyPieces(op, olds, page, split.value, modified, false);
        if classified.Err? {
          return Err(classified.error);
        }
        var (modified', found) := classified.value;
        forall c | c in candidates + found
          ensures exists j :: 0 <= j <= i && ConversationInsert.Candidate(c, rev.diff[j], olds, page)
        {
          if c in found {
            assert ConversationInsert.Candidate(c, rev.diff[i], olds, page);
          }
        }
        modified, candidates := modified', candidates + found;
      }
    }
    return Ok(ConversationInsert.Scanned(additions, modified, candidates));
  }

  // ---------------------------------------------------------------------
  // Rearrangements

  /**
   * The rearrangement search of the older constructor: every removal found inside an addition
   * becomes a rearrangement action, moves its action to where it was found and records the
   * range it now covers; a removal found nowhere stays a removal.
   */
  method Rearrange(removals: seq<Removal>, additions: seq<Span>, rev: Revision, h: Helpers)
    returns (kept: seq<Removal>, adds: seq<Span>, rearrangement: map<int, int>, ends: seq<(int, int)>, actions: seq<Action>)
    ensures |kept| + |actions| == |removals| && |actions| == |ends|
    ensures forall k :: 0 <= k < |kept| ==> kept[k] in removals
    ensures forall k :: 0 <= k < |ends| ==> ends[k].0 <= ends[k].1
    ensures forall a :: a in rearrangement ==> exists k :: 0 <= k < |removals| && removals[k].span.a1 == a
    ensures forall k :: 0 <= k < |actions| ==> exists i :: 0 <= i < |removals| && Rearranged(actions[k], removals[i], rev, h)
    ensures |additions| == 0 ==> kept == removals && actions == [] && rearrangement == map[]
    ensures var s := SearchOf(removals, additions, 0, h.tokenize);
      && kept == s.kept && adds == s.adds && rearrangement == RearrangementOf(s.moved) && ends == EndsOf(s.moved)
      && actions == MovedActions(s.moved, rev, h)
  {
    kept, adds, rearrangement, ends, actions := [], additions, map[], [], [];
    ghost var s := Search([], additions, []);
    for i := 0 to |removals|
      invariant s == SearchOf(removals[..i], additions, 0, h.tokenize)
      invariant kept == s.kept && adds == s.adds && rearrangement == RearrangementOf(s.moved) && ends == EndsOf(s.moved)
      invariant actions == MovedActions(s.moved, rev, h)
    {
      var removal := removals[i];
      SearchNext(removals, additions, 0, h.tokenize, i);
      var found, updated := MatchMove(removal, adds, h.tokenize);
      if found.None? {
        kept := kept + [removal];
        s := s.(kept := kept);
      } else {
        var mv := found.value;
        MovedAppend(s.moved, mv);
        MovedActionsAppend(s.moved, mv, rev, h);
        ends := ends + [NewRange(mv)];
        rearrangement := rearrangement[removal.span.a1 := NewRange(mv).0];
        actions := actions + [h.commentRearrangement(removal.slot.id, removal.span.tokens, mv.m.startTok, rev, mv.insert.a1)];
        adds := updated;
        s := Search(kept, adds, s.moved + [mv]);
      }
    }
    assert removals[..|removals|] == removals;
    SearchFacts(removals, additions, rev, h, kept, adds, rearrangement, ends, actions);
  }

  lemma MovedActionsAppend(moved: seq<Moved>, mv: Moved, rev: Revision, h: Helpers)
    ensures MovedActions(moved + [mv], rev, h) ==
      MovedActions(moved, rev, h) + [h.commentRearrangement(mv.removal.slot.id, mv.removal.span.tokens, mv.m.startTok, rev, mv.insert.a1)]
  {
    assert (moved + [mv])[..|moved|] == moved;
  }

  /** What `Rearrange` promises about the outcome of the older search, from the lemmas about the search. */
  lemma SearchFacts(removals: seq<Removal>, additions: seq<Span>, rev: Revision, h: Helpers,
                    kept: seq<Removal>, adds: seq<Span>, rearrangement: map<int, int>, ends: seq<(int, int)>, actions: seq<Action>)
    requires var s := SearchOf(removals, additions, 0, h.tokenize);
      && kept == s.kept && adds == s.adds && rearrangement == RearrangementOf(s.moved) && ends == EndsOf(s.moved)
      && actions == MovedActions(s.moved, rev, h)
    ensures |kept| + |actions| == |removals| && |actions| == |ends|
    ensures forall k :: 0 <= k < |kept| ==> kept[k] in removals
    ensures forall k :: 0 <= k < |ends| ==> ends[k].0 <= ends[k].1
    ensures forall a :: a in rearrangement ==> exists k :: 0 <= k < |removals| && removals[k].span.a1 == a
    ensures forall k :: 0 <= k < |actions| ==> exists i :: 0 <= i < |removals| && Rearranged(actions[k], removals[i], rev, h)
    ensures |additions| == 0 ==> kept == removals && actions == [] && rearrangement == map[]
  {
    var s := SearchOf(removals, additions, 0, h.tokenize);
    assert |kept| + |actions| == |removals| by {
      SearchCovers(removals, additions, 0, h.tokenize);
      SearchableAll(removals);
    }
    assert forall k :: 0 <= k < |ends| ==> ends[k].0 <= ends[k].1 by {
      EndsSpanRemovals(removals, additions, 0, h.tokenize);
    }
    assert forall k :: 0 <= k < |kept| ==> kept[k] in removals by {
      SearchSound(removals, additions, 0, h.tokenize);
      assert forall k :: 0 <= k < |s.kept| ==> s.kept[k] in s.kept;
    }
    assert forall a :: a in rearrangement ==> exists k :: 0 <= k < |removals| && removals[k].span.a1 == a by {
      SearchSound(removals, additions, 0, h.tokenize);
      RearrangementKeys(s.moved);
      forall a | a in rearrangement
        ensures exists k :: 0 <= k < |removals| && removals[k].span.a1 == a
      {
        var j :| 0 <= j < |s.moved| && s.moved[j].removal.span.a1 == a;
        assert s.moved[j] in s.moved;
        var k :| 0 <= k < |removals| && removals[k] == s.moved[j].removal;
      }
    }
    assert forall k :: 0 <= k < |actions| ==> exists i :: 0 <= i < |removals| && Rearranged(actions[k], removals[i], rev, h) by {
      SearchSound(removals, additions, 0, h.tokenize);
      MovedActionsRearranged(s.moved, rev, h);
      forall k | 0 <= k < |actions| ensures exists i :: 0 <= i < |removals| && Rearranged(actions[k], removals[i], rev, h) {
        assert s.moved[k] in s.moved;
        var i :| 0 <= i < |removals| && removals[i] == s.moved[k].removal;
      }
    }
    if |additions| == 0 {
      SearchNoAdditions(removals, 0, h.tokenize);
      SearchableAll(removals);
    }
  }

  /** The rearrangement action of each moved removal, in order: its id and tokens, placed at the match in its addition. */
  function MovedActions(moved: seq<Moved>, rev: Revision, h: Helpers): (r: seq<Action>)
    ensures |r| == |moved|
  {
    if |moved| == 0 then []
    else
      var mv := moved[|moved| - 1];
      MovedActions(moved[..|moved| - 1], rev, h)
        + [h.commentRearrangement(mv.removal.slot.id, mv.removal.span.tokens, mv.m.startTok, rev, mv.insert.a1)]
  }

  /** The k-th action is the rearrangement action of the k-th moved removal. */
  lemma {:induction false} MovedActionsRearranged(moved: seq<Moved>, rev: Revision, h: Helpers)
    ensures forall k :: 0 <= k < |moved| ==> Rearranged(MovedActions(moved, rev, h)[k], moved[k].removal, rev, h)
    decreases |moved|
  {
    if |moved| > 0 {
      var init := moved[..|moved| - 1];
      MovedActionsRearranged(init, rev, h);
      var mv := moved[|moved| - 1];
      var a := h.commentRearrangement(mv.removal.slot.id, mv.removal.span.tokens, mv.m.startTok, rev, mv.insert.a1);
      assert Rearranged(a, mv.removal, rev, h);
      forall k | 0 <= k < |moved| ensures Rearranged(MovedActions(moved, rev, h)[k], moved[k].removal, rev, h) {
        if k < |init| {
          assert moved[k] == init[k];
        }
      }
    }
  }

  /** `a` is the rearrangement action of `removal`, found at some token offset of some addition. */
  ghost predicate Rearranged(a: Action, removal: Removal, rev: Revision, h: Helpers) {
    exists startTok: int, a1: int :: a == h.commentRearrangement(removal.slot.id, removal.span.tokens, startTok, rev, a1)
  }

  // ---------------------------------------------------------------------
  // The final checks

  /** The checks of the older constructor: offset 0 is on the page state and the last offset is the boundary. */
  predicate EndChecked(actions: Actions) {
    0 in actions && actions[MaxOf(actions.Keys)] == Boundary
  }

  /** The current constructor's checks include the older ones. */
  lemma WellFormedIsEndChecked(actions: Actions)
    requires WellFormed(actions)
    ensures EndChecked(actions)
  {
  }

  /** The older checks accept a page state with a second boundary, which the current ones reject. */
  lemma EndCheckedAllowsTwoBoundaries()
    ensures var a := map[0 := Boundary, 5 := Boundary];
      EndChecked(a) && !WellFormed(a)
  {
    var a := map[0 := Boundary, 5 := Boundary];
    assert a.Keys == {0, 5};
    assert MaxOf(a.Keys) == 5 by {
      var m := MaxOf(a.Keys);
      assert m in {0, 5} && 5 <= m;
    }
    assert a[0] == Boundary && 0 != MaxOf(a.Keys);
  }

  // ---------------------------------------------------------------------
  // insert

  /**
   * `insert` of the older constructor: the actions of one revision, in the order they are
   * produced (rearrangements, removals, modifications, restorations, additions), and the new
   * page state. Err is an exception of the original: an index or key error in the phases or a
   * failed boundary check.
   */
  method Insert(rev: Revision, page: Page, trie: Trie, h: Helpers) returns (r: Result<(seq<Action>, Page), string>)
    ensures r.Ok? ==> EndChecked(r.value.1.actions)
    ensures r.Ok? ==> r.value.1.pageId == rev.pageId && r.value.1.pageTitle == rev.pageTitle
  {
    var olds := SortedSet(page.actions.Keys);
    var revText := h.tokenize(rev.text);
    var scanned := Scan(rev, olds, page.actions, revText, h);
    if scanned.Err? {
      return Err(scanned.error);
    }
    var modified := set x | x in scanned.value.modified;
    var removals, removed := ConversationInsert.ConfirmRemovals(scanned.value.candidates, {});
    var kept, adds, rearrangement, ends, actions := Rearrange(removals, scanned.value.additions, rev, h);
    var removalActions := RegisterRemovals(kept, rev, h);
    actions := actions + removalActions;
    var upd := CarryOver(olds, page.actions, modified, removed, rearrangement, rev.diff, h);
    var modifications := Modifications(scanned.value.modified, olds, page.actions, upd, rev, h);
    if modifications.Err? {
      return Err(modifications.error);
    }
    actions := actions + modifications.value.0;
    var pieces, restored, restoredUpd, restoredEnds := Restorations(adds, trie, modifications.value.1, rev, h, false);
    var added, addedUpd, addedEnds := AddComments(pieces, restoredUpd, rev, h);
    actions := actions + restored + added;
    var padded := PadEndTokens(ends + restoredEnds + addedEnds, addedUpd);
    if padded.Err? {
      return Err(padded.error);
    }
    if !EndChecked(padded.value) {
      return Err("AssertionError");
    }
    return Ok((actions, Page(rev.pageId, rev.pageTitle, padded.value)));
  }
}
