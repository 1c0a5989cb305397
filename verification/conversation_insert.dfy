/**
 * `insert` of the current conversation constructor: one revision's diff against the page
 * state becomes the list of conversation actions of that revision and the new page state.
 *
 * The diff is scanned once; insertions that start a line at an action boundary are comment
 * additions, other insertions mark the action they fall in as modified, and deletions are
 * split at action boundaries into removal candidates and modifications. Candidates whose action
 * is modified are dropped, long removals found inside an addition become rearrangements, the
 * remaining phases are those of `InsertPhases`, and the result is checked and sorted by the
 * number in the action ids.
 */
module ConversationInsert {
  import opened Wrappers
  import opened Text
  import opened Sorting
  import opened PageState
  import Deletion
  import opened InsertPhases

  /** Removals of at most this many tokens are not searched for in the additions. */
  const ShortRemoval := 10

  // ---------------------------------------------------------------------
  // Scanning the diff

  /**
   * The comment-addition test of an insertion: it starts at an old action boundary, it opens a
   * line (starts with a line break, starts the page or follows a line break) and it closes one
   * (ends the page or ends with a line break). Err is the IndexError of the empty insertion or
   * of an insertion starting past the end of the new text.
   */
  function IsCommentAddition(op: DiffOp, olds: seq<int>, revText: seq<Token>): (r: Result<bool, string>)
    ensures op.a1 !in olds ==> r == Ok(false)
    ensures r.Err? <==> op.a1 in olds && (|op.tokens| == 0 || (!op.tokens[0].isBreak && op.b1 > |revText|))
    ensures r == Ok(true) <==>
      && op.a1 in olds && |op.tokens| > 0
      && (op.tokens[0].isBreak || op.b1 == 0 || (0 < op.b1 <= |revText| && revText[op.b1 - 1].isBreak))
      && (op.b2 == |revText| || op.tokens[|op.tokens| - 1].isBreak)
  {
    if op.a1 !in olds then Ok(false)
    else
      match PyIndex(op.tokens, 0)
      case None => Err("IndexError: list index out of range")
      case Some(first) =>
        var opens :=
          if first.isBreak || op.b1 == 0 then Ok(true)
          else if op.b1 > 0 then
            match PyIndex(revText, op.b1 - 1)
            case None => Err("IndexError: list index out of range")
            case Some(t) => Ok(t.isBreak)
          else Ok(false);
        match opens
        case Err(e) => Err(e)
        case Ok(false) => Ok(false)
        case Ok(true) => Ok(op.b2 == |revText| || op.tokens[|op.tokens| - 1].isBreak)
  }

  predicate NoDup(s: seq<int>) {
    forall i, j :: 0 <= i < j < |s| ==> s[i] != s[j]
  }

  /** `modification_actions[act] = True`: the keys in insertion order, each once. */
  function Mark(modified: seq<int>, act: int): (r: seq<int>)
    ensures forall x :: x in r <==> x in modified || x == act
    ensures |r| >= |modified| && r[..|modified|] == modified
    ensures NoDup(modified) ==> NoDup(r)
  {
    if act in modified then modified else modified + [act]
  }

  /** What the scan of the diff collects. */
  datatype Scanned = Scanned(additions: seq<Span>, modified: seq<int>, candidates: seq<(int, Removal)>)

  /** `a` is one of the sections of insertion `op`, which passed the comment-addition test. */
  predicate AdditionFrom(a: Span, op: DiffOp, olds: seq<int>, revText: seq<Token>, h: Helpers) {
    && op.name.Insert?
    && IsCommentAddition(op, olds, revText) == Ok(true)
    && a in h.divide(op, TokensText(op.tokens))
  }

  /**
   * `c` is a removal candidate of deletion `op`: its action starts at or after the deletion's
   * start, is not the last action the deletion touches, and the candidate holds that action's
   * page-state value; on a deletion that splits cleanly the piece starts exactly at the action
   * and holds the matching slice of the deleted tokens.
   */
  predicate Candidate(c: (int, Removal), op: DiffOp, olds: seq<int>, page: Actions) {
    && op.name.Delete?
    && c.0 in page && c.1.slot == page[c.0]
    && op.a1 <= c.0
    && FindPos(op.a2, olds) < |olds| && c.0 != olds[FindPos(op.a2, olds)]
    && (Deletion.Splittable(op, olds) ==> PieceOfAction(c.0, c.1.span, op))
  }

  /** The piece starts exactly at the action, inside the deletion, with the matching slice of the deleted tokens. */
  predicate PieceOfAction(act: int, span: Span, op: DiffOp) {
    && span.a1 == act && act < span.a2 <= op.a2
    && span.tokens == PySlice(op.tokens, act - op.a1, span.a2 - op.a1)
  }

  /** A piece at or after the deletion's start whose action is not the last one touched is a candidate. */
  lemma PieceCandidate(op: DiffOp, olds: seq<int>, page: Actions, p: Deletion.Piece, k: nat)
    requires op.name.Delete?
    requires op.a1 <= p.act && p.act in page
    requires FindPos(op.a2, olds) < |olds| && p.act != olds[FindPos(op.a2, olds)]
    requires Deletion.Splittable(op, olds) ==>
      Deletion.PieceAt(op, olds, FindPos(op.a1, olds), p, k) && p.span.a2 <= op.a2 && p.span.a1 < p.span.a2
    ensures Candidate((p.act, Removal(page[p.act], p.span)), op, olds, page)
  {
    if Deletion.Splittable(op, olds) {
      PieceStartsAtAction(op, olds, FindPos(op.a1, olds), p, k);
    }
  }

  /** A piece of a split deletion whose action starts inside the deletion starts at that action. */
  lemma PieceStartsAtAction(op: DiffOp, olds: seq<int>, s: nat, p: Deletion.Piece, k: nat)
    requires Deletion.PieceAt(op, olds, s, p, k)
    requires op.a1 <= p.act && p.span.a1 < p.span.a2 <= op.a2
    ensures PieceOfAction(p.act, p.span, op)
  {
    assert p.span.a1 == p.act;
  }

  /**
   * The classification loop from piece `k` on, with the marks and candidates so far: a piece at
   * or after the deletion's start fails when the last action the deletion touches cannot be
   * read; a piece before the deletion's start, at that last action or (with `skipModified`) at
   * a marked action marks its action; any other piece is a candidate of its action, a KeyError
   * when the page state has none.
   */
  function ClassifyFrom(op: DiffOp, olds: seq<int>, page: Actions, pieces: seq<Deletion.Piece>, skipModified: bool,
                        k: nat, marked: seq<int>, candidates: seq<(int, Removal)>): Result<(seq<int>, seq<(int, Removal)>), string>
    decreases |pieces| - k
  {
    if k >= |pieces| then Ok((marked, candidates))
    else
      var act := pieces[k].act;
      var last := PyIndex(olds, FindPos(op.a2, olds));
      if op.a1 <= act && last.None? then Err("IndexError: list index out of range")
      else if op.a1 > act || act == last.value || (skipModified && act in marked) then
        ClassifyFrom(op, olds, page, pieces, skipModified, k + 1, Mark(marked, act), candidates)
      else if act !in page then Err("KeyError")
      else ClassifyFrom(op, olds, page, pieces, skipModified, k + 1, marked, candidates + [(act, Removal(page[act], pieces[k].span))])
  }

  /** Piece `p` was accounted for: its action is marked as modified, or it is a candidate with its action's page-state value. */
  predicate Covered(p: Deletion.Piece, modified: seq<int>, candidates: seq<(int, Removal)>, page: Actions) {
    p.act in modified || (p.act in page && (p.act, Removal(page[p.act], p.span)) in candidates)
  }

  /**
   * A classification that succeeds keeps the earlier marks and candidates and accounts for
   * every remaining piece.
   */
  lemma {:induction false} ClassifyCovers(op: DiffOp, olds: seq<int>, page: Actions, pieces: seq<Deletion.Piece>, skipModified: bool,
                                          k: nat, marked: seq<int>, candidates: seq<(int, Removal)>)
    requires ClassifyFrom(op, olds, page, pieces, skipModified, k, marked, candidates).Ok?
    ensures var r := ClassifyFrom(op, olds, page, pieces, skipModified, k, marked, candidates).value;
      && (forall x :: x in marked ==> x in r.0)
      && (forall c :: c in candidates ==> c in r.1)
      && (forall j :: k <= j < |pieces| ==> Covered(pieces[j], r.0, r.1, page))
    decreases |pieces| - k
  {
    if k < |pieces| {
      var act := pieces[k].act;
      var last := PyIndex(olds, FindPos(op.a2, olds));
      if op.a1 > act || act == last.value || (skipModified && act in marked) {
        ClassifyCovers(op, olds, page, pieces, skipModified, k + 1, Mark(marked, act), candidates);
      } else {
        ClassifyCovers(op, olds, page, pieces, skipModified, k + 1, marked, candidates + [(act, Removal(page[act], pieces[k].span))]);
      }
    }
  }

  /**
   * The classification loop of one deletion's pieces. A piece starting inside its action or at
   * the last action the deletion touches marks that action as modified, and so does, with
   * `skipModified` (the current constructor), a piece at an action already modified; any other
   * piece is a removal candidate of its action.
   */
  method ClassifyPieces(op: DiffOp, olds: seq<int>, page: Actions, pieces: seq<Deletion.Piece>, modified: seq<int>, skipModified: bool)
    returns (r: Result<(seq<int>, seq<(int, Removal)>), string>)
    requires op.name.Delete?
    requires Deletion.Splittable(op, olds) ==>
      && Deletion.Tiles(pieces, op.a1, op.a2)
      && forall k :: 0 <= k < |pieces| ==> Deletion.PieceAt(op, olds, FindPos(op.a1, olds), pieces[k], k)
    ensures r == ClassifyFrom(op, olds, page, pieces, skipModified, 0, modified, [])
    ensures r.Ok? ==> forall c :: c in r.value.1 ==> Candidate(c, op, olds, page)
    ensures r.Ok? ==> forall x :: x in modified ==> x in r.value.0
    ensures r.Ok? && NoDup(modified) ==> NoDup(r.value.0)
  {
    var marked := modified;
    var candidates: seq<(int, Removal)> := [];
    for k := 0 to |pieces|
      invariant ClassifyFrom(op, olds, page, pieces, skipModified, 0, modified, []) ==
        ClassifyFrom(op, olds, page, pieces, skipModified, k, marked, candidates)
      invariant forall c :: c in candidates ==> Candidate(c, op, olds, page)
      invariant forall x :: x in modified ==> x in marked
      invariant NoDup(modified) ==> NoDup(marked)
    {
      var act := pieces[k].act;
      var isModification := true;
      if op.a1 <= act {
        var last := PyIndex(olds, FindPos(op.a2, olds));
        if last.None? {
          return Err("IndexError: list index out of range");
        }
        isModification := act == last.value || (skipModified && act in marked);
      }
      if isModification {
        marked := Mark(marked, act);
      } else {
        if act !in page {
          return Err("KeyError");
        }
        assert Deletion.Splittable(op, olds) ==>
          Deletion.PieceAt(op, olds, FindPos(op.a1, olds), pieces[k], k)
          && op.a1 <= pieces[k].span.a1 < pieces[k].span.a2 <= op.a2;
        PieceCandidate(op, olds, page, pieces[k], k);
        candidates := candidates + [(act, Removal(page[act], pieces[k].span))];
      }
    }
    return Ok((marked, candidates));
  }

  /**
   * The scan of the diff from operation `i` on, `test` being the comment-addition test of the
   * constructor and `skipModified` its classification rule: an insertion passing the test adds
   * its sections, one failing it marks the action it falls in, and a deletion is split and its
   * pieces classified; the first error stops the scan.
   */
  function ScanFrom(diff: seq<DiffOp>, test: DiffOp -> Result<bool, string>, skipModified: bool, olds: seq<int>,
                    page: Actions, h: Helpers, i: nat, acc: Scanned): Result<Scanned, string>
    decreases |diff| - i
  {
    if i >= |diff| then Ok(acc)
    else
      var op := diff[i];
      if op.name.Insert? then
        match test(op)
        case Err(e) => Err(e)
        case Ok(true) =>
          ScanFrom(diff, test, skipModified, olds, page, h, i + 1, acc.(additions := acc.additions + h.divide(op, TokensText(op.tokens))))
        case Ok(false) =>
          ScanFrom(diff, test, skipModified, olds, page, h, i + 1, acc.(modified := Mark(acc.modified, h.actionStart(olds, op.a1))))
      else if op.name.Delete? then
        match Deletion.Split(op, olds)
        case Err(e) => Err(e)
        case Ok(pieces) =>
          match ClassifyFrom(op, olds, page, pieces, skipModified, 0, acc.modified, [])
          case Err(e) => Err(e)
          case Ok((marked, found)) =>
            ScanFrom(diff, test, skipModified, olds, page, h, i + 1, Scanned(acc.additions, marked, acc.candidates + found))
      else ScanFrom(diff, test, skipModified, olds, page, h, i + 1, acc)
  }

  /** The scan of a whole diff, starting from nothing. */
  function ScanOf(diff: seq<DiffOp>, test: DiffOp -> Result<bool, string>, skipModified: bool, olds: seq<int>,
                  page: Actions, h: Helpers): Result<Scanned, string>
  {
    ScanFrom(diff, test, skipModified, olds, page, h, 0, Scanned([], [], []))
  }

  /** The comment-addition test of this constructor against the old offsets and the new text. */
  function AdditionTest(olds: seq<int>, revText: seq<Token>): DiffOp -> Result<bool, string> {
    op => IsCommentAddition(op, olds, revText)
  }

  /** The sections of the insertions from `i` on that pass `test`, in diff order. */
  function SectionsFrom(diff: seq<DiffOp>, test: DiffOp -> Result<bool, string>, h: Helpers, i: nat): seq<Span>
    decreases |diff| - i
  {
    if i >= |diff| then []
    else
      var op := diff[i];
      (if op.name.Insert? && test(op) == Ok(true) then h.divide(op, TokensText(op.tokens)) else [])
        + SectionsFrom(diff, test, h, i + 1)
  }

  /**
   * Operation `op` was accounted for in `r`: an insertion was tested without error and, failing
   * the test, marked the action it falls in; a deletion split without error and each of its
   * pieces is covered.
   */
  predicate OpCovered(op: DiffOp, test: DiffOp -> Result<bool, string>, olds: seq<int>, page: Actions, h: Helpers, r: Scanned) {
    && (op.name.Insert? ==> test(op).Ok? && (test(op) == Ok(false) ==> h.actionStart(olds, op.a1) in r.modified))
    && (op.name.Delete? ==>
          && Deletion.Split(op, olds).Ok?
          && forall p :: p in Deletion.Split(op, olds).value ==> Covered(p, r.modified, r.candidates, page))
  }

  /** A successful scan's additions are exactly the sections of the passing insertions, in order. */
  lemma {:induction false} ScanAdditions(diff: seq<DiffOp>, test: DiffOp -> Result<bool, string>, skipModified: bool, olds: seq<int>,
                                         page: Actions, h: Helpers, i: nat, acc: Scanned)
    requires ScanFrom(diff, test, skipModified, olds, page, h, i, acc).Ok?
    ensures ScanFrom(diff, test, skipModified, olds, page, h, i, acc).value.additions == acc.additions + SectionsFrom(diff, test, h, i)
    decreases |diff| - i
  {
    if i < |diff| {
      var op := diff[i];
      if op.name.Insert? && test(op) == Ok(true) {
        var acc' := acc.(additions := acc.additions + h.divide(op, TokensText(op.tokens)));
        ScanAdditions(diff, test, skipModified, olds, page, h, i + 1, acc');
        assert acc'.additions + SectionsFrom(diff, test, h, i + 1) == acc.additions + SectionsFrom(diff, test, h, i);
      } else if op.name.Insert? {
        ScanAdditions(diff, test, skipModified, olds, page, h, i + 1, acc.(modified := Mark(acc.modified, h.actionStart(olds, op.a1))));
      } else if op.name.Delete? {
        var c := ClassifyFrom(op, olds, page, Deletion.Split(op, olds).value, skipModified, 0, acc.modified, []).value;
        ScanAdditions(diff, test, skipModified, olds, page, h, i + 1, Scanned(acc.additions, c.0, acc.candidates + c.1));
      } else {
        ScanAdditions(diff, test, skipModified, olds, page, h, i + 1, acc);
      }
    }
  }

  /** A successful scan keeps the earlier marks and candidates and accounts for every operation from `i` on. */
  lemma {:induction false} ScanCovers(diff: seq<DiffOp>, test: DiffOp -> Result<bool, string>, skipModified: bool, olds: seq<int>,
                                      page: Actions, h: Helpers, i: nat, acc: Scanned)
    requires ScanFrom(diff, test, skipModified, olds, page, h, i, acc).Ok?
    ensures var r := ScanFrom(diff, test, skipModified, olds, page, h, i, acc).value;
      && (forall x :: x in acc.modified ==> x in r.modified)
      && (forall c :: c in acc.candidates ==> c in r.candidates)
      && (forall j :: i <= j < |diff| ==> OpCovered(diff[j], test, olds, page, h, r))
    decreases |diff| - i
  {
    if i < |diff| {
      var op := diff[i];
      var r := ScanFrom(diff, test, skipModified, olds, page, h, i, acc).value;
      if op.name.Insert? && test(op) == Ok(true) {
        ScanCovers(diff, test, skipModified, olds, page, h, i + 1, acc.(additions := acc.additions + h.divide(op, TokensText(op.tokens))));
      } else if op.name.Insert? {
        ScanCovers(diff, test, skipModified, olds, page, h, i + 1, acc.(modified := Mark(acc.modified, h.actionStart(olds, op.a1))));
      } else if op.name.Delete? {
        var pieces := Deletion.Split(op, olds).value;
        ClassifyCovers(op, olds, page, pieces, skipModified, 0, acc.modified, []);
        var c := ClassifyFrom(op, olds, page, pieces, skipModified, 0, acc.modified, []).value;
        ScanCovers(diff, test, skipModified, olds, page, h, i + 1, Scanned(acc.additions, c.0, acc.candidates + c.1));
        forall p | p in pieces ensures Covered(p, r.modified, r.candidates, page) {
          var j :| 0 <= j < |pieces| && pieces[j] == p;
          assert Covered(pieces[j], c.0, c.1, page);
        }
      } else {
        ScanCovers(diff, test, skipModified, olds, page, h, i + 1, acc);
      }
    }
  }

  /**
   * What a successful scan of a whole diff holds: its additions are the sections of the
   * insertions that pass the test, in order; every insertion was tested without error and, when
   * it failed, its action is marked; every deletion was split and each of its pieces either
   * marks its action or is a removal candidate of it.
   */
  lemma ScanComplete(diff: seq<DiffOp>, test: DiffOp -> Result<bool, string>, skipModified: bool, olds: seq<int>,
                     page: Actions, h: Helpers)
    requires ScanOf(diff, test, skipModified, olds, page, h).Ok?
    ensures ScanOf(diff, test, skipModified, olds, page, h).value.additions == SectionsFrom(diff, test, h, 0)
    ensures forall j :: 0 <= j < |diff| ==> OpCovered(diff[j], test, olds, page, h, ScanOf(diff, test, skipModified, olds, page, h).value)
  {
    ScanAdditions(diff, test, skipModified, olds, page, h, 0, Scanned([], [], []));
    ScanCovers(diff, test, skipModified, olds, page, h, 0, Scanned([], [], []));
  }

  /**
   * The scan of the diff. Additions come from insertions passing the comment-addition test,
   * removal candidates from deletion pieces, and every other insertion or deletion piece marks
   * an action as modified. A diff of equal runs only finds nothing.
   */
  method Scan(rev: Revision, olds: seq<int>, page: Actions, revText: seq<Token>, h: Helpers)
    returns (r: Result<Scanned, string>)
    ensures r.Ok? ==> NoDup(r.value.modified)
    ensures r.Ok? ==> forall a :: a in r.value.additions ==>
      exists j :: 0 <= j < |rev.diff| && AdditionFrom(a, rev.diff[j], olds, revText, h)
    ensures r.Ok? ==> forall c :: c in r.value.candidates ==>
      exists j :: 0 <= j < |rev.diff| && Candidate(c, rev.diff[j], olds, page)
    ensures (forall j :: 0 <= j < |rev.diff| ==> rev.diff[j].name.Equal?) ==> r == Ok(Scanned([], [], []))
    ensures r == ScanOf(rev.diff, AdditionTest(olds, revText), true, olds, page, h)
  {
    var additions: seq<Span> := [];
    var modified: seq<int> := [];
    var candidates: seq<(int, Removal)> := [];
    ghost var test := AdditionTest(olds, revText);
    for i := 0 to |rev.diff|
      invariant ScanOf(rev.diff, test, true, olds, page, h) ==
        ScanFrom(rev.diff, test, true, olds, page, h, i, Scanned(additions, modified, candidates))
      invariant NoDup(modified)
      invariant forall a :: a in additions ==> exists j :: 0 <= j < i && AdditionFrom(a, rev.diff[j], olds, revText, h)
      invariant forall c :: c in candidates ==> exists j :: 0 <= j < i && Candidate(c, rev.diff[j], olds, page)
      invariant (forall j :: 0 <= j < i ==> rev.diff[j].name.Equal?) ==> additions == [] && modified == [] && candidates == []
    {
      var op := rev.diff[i];
      if op.name.Insert? {
        var passes := IsCommentAddition(op, olds, revText);
        assert test(op) == passes;
        if passes.Err? {
          return Err(passes.error);
        }
        if passes.value {
          additions := additions + h.divide(op, TokensText(op.tokens));
        } else {
          modified := Mark(modified, h.actionStart(olds, op.a1));
        }
      } else if op.name.Delete? {
        var split := Deletion.SplitDeletion(op, olds);
        if split.Err? {
          return Err(split.error);
        }
        var classified := ClassifyPieces(op, olds, page, split.value, modified, true);
        if classified.Err? {
          return Err(classified.error);
        }
        var (modified', found) := classified.value;
        forall c | c in candidates + found
          ensures exists j :: 0 <= j <= i && Candidate(c, rev.diff[j], olds, page)
        {
          if c in found {
            assert Candidate(c, rev.diff[i], olds, page);
          }
        }
        modified, candidates := modified', candidates + found;
      }
    }
    return Ok(Scanned(additions, modified, candidates));
  }

  // ---------------------------------------------------------------------
  // Dropping what a modification overrides

  /** The additions that do not start at a modified action, in order. */
  function Unmodified(additions: seq<Span>, modified: set<int>): (r: seq<Span>)
    ensures forall a :: a in r <==> a in additions && a.a1 !in modified
    ensures |r| <= |additions|
  {
    if |additions| == 0 then []
    else
      var rest := Unmodified(additions[..|additions| - 1], modified);
      var a := additions[|additions| - 1];
      assert forall x :: x in additions <==> x in additions[..|additions| - 1] || x == a;
      if a.a1 in modified then rest else rest + [a]
  }

  method KeepAdditions(additions: seq<Span>, modified: set<int>) returns (kept: seq<Span>)
    ensures kept == Unmodified(additions, modified)
  {
    kept := [];
    for i := 0 to |additions|
      invariant kept == Unmodified(additions[..i], modified)
    {
      assert additions[..i + 1][..i] == additions[..i];
      if additions[i].a1 !in modified {
        kept := kept + [additions[i]];
      }
    }
    assert additions[..|additions|] == additions;
  }

  /**
   * The removal candidates whose action is not modified, in order, and the set of their
   * actions (`removed_actions`).
   */
  function Confirmed(candidates: seq<(int, Removal)>, modified: set<int>): (r: (seq<Removal>, set<int>))
    ensures forall x :: x in r.1 <==> exists k :: 0 <= k < |candidates| && candidates[k].0 == x && x !in modified
    ensures forall rm :: rm in r.0 ==> exists k :: 0 <= k < |candidates| && candidates[k].1 == rm && candidates[k].0 !in modified
    ensures |r.0| <= |candidates|
  {
    if |candidates| == 0 then ([], {})
    else
      var init := candidates[..|candidates| - 1];
      var rest := Confirmed(init, modified);
      var c := candidates[|candidates| - 1];
      assert forall k :: 0 <= k < |init| ==> candidates[k] == init[k];
      if c.0 in modified then rest else (rest.0 + [c.1], rest.1 + {c.0})
  }

  method ConfirmRemovals(candidates: seq<(int, Removal)>, modified: set<int>)
    returns (removals: seq<Removal>, removed: set<int>)
    ensures (removals, removed) == Confirmed(candidates, modified)
  {
    removals, removed := [], {};
    for i := 0 to |candidates|
      invariant (removals, removed) == Confirmed(candidates[..i], modified)
    {
      assert candidates[..i + 1][..i] == candidates[..i];
      if candidates[i].0 !in modified {
        removals := removals + [candidates[i].1];
        removed := removed + {candidates[i].0};
      }
    }
    assert candidates[..|candidates|] == candidates;
  }

  // ---------------------------------------------------------------------
  // Rearrangements

  /**
   * The rearrangement search. A removal of more than `ShortRemoval` tokens found inside an
   * addition moves its action to where it was found (its old offset maps to the new one) and
   * records the range it now covers; a long removal found nowhere stays a removal. A short
   * removal is neither: it is dropped.
   */
  method Rearrange(removals: seq<Removal>, additions: seq<Span>, tokenize: string -> seq<Token>)
    returns (kept: seq<Removal>, adds: seq<Span>, rearrangement: map<int, int>, ends: seq<(int, int)>)
    ensures forall k :: 0 <= k < |kept| ==> kept[k] in removals && |kept[k].span.tokens| > ShortRemoval
    ensures MovedFrom(rearrangement, removals)
    ensures forall k :: 0 <= k < |ends| ==> ends[k].1 - ends[k].0 > ShortRemoval
    ensures |kept| + |ends| <= |removals|
    ensures (forall k :: 0 <= k < |removals| ==> |removals[k].span.tokens| <= ShortRemoval) ==>
      kept == [] && adds == additions && rearrangement == map[] && ends == []
    ensures var s := SearchOf(removals, additions, ShortRemoval + 1, tokenize);
      kept == s.kept && adds == s.adds && rearrangement == RearrangementOf(s.moved) && ends == EndsOf(s.moved)
  {
    kept, adds, rearrangement, ends := [], additions, map[], [];
    ghost var s := Search([], additions, []);
    for i := 0 to |removals|
      invariant s == SearchOf(removals[..i], additions, ShortRemoval + 1, tokenize)
      invariant kept == s.kept && adds == s.adds && rearrangement == RearrangementOf(s.moved) && ends == EndsOf(s.moved)
    {
      var removal := removals[i];
      SearchNext(removals, additions, ShortRemoval + 1, tokenize, i);
      if |removal.span.tokens| <= ShortRemoval {
        continue;
      }
      var found, updated := MatchMove(removal, adds, tokenize);
      if found.None? {
        kept := kept + [removal];
        s := s.(kept := kept);
      } else {
        var mv := found.value;
        MovedAppend(s.moved, mv);
        ends := ends + [NewRange(mv)];
        rearrangement := rearrangement[removal.span.a1 := NewRange(mv).0];
        adds := updated;
        s := Search(kept, adds, s.moved + [mv]);
      }
    }
    assert removals[..|removals|] == removals;
    SearchFacts(removals, additions, tokenize, kept, adds, rearrangement, ends);
  }

  /** What `Rearrange` promises about the outcome of the current search, from the lemmas about the search. */
  lemma SearchFacts(removals: seq<Removal>, additions: seq<Span>, tokenize: string -> seq<Token>,
                    kept: seq<Removal>, adds: seq<Span>, rearrangement: map<int, int>, ends: seq<(int, int)>)
    requires var s := SearchOf(removals, additions, ShortRemoval + 1, tokenize);
      kept == s.kept && adds == s.adds && rearrangement == RearrangementOf(s.moved) && ends == EndsOf(s.moved)
    ensures forall k :: 0 <= k < |kept| ==> kept[k] in removals && |kept[k].span.tokens| > ShortRemoval
    ensures MovedFrom(rearrangement, removals)
    ensures forall k :: 0 <= k < |ends| ==> ends[k].1 - ends[k].0 > ShortRemoval
    ensures |kept| + |ends| <= |removals|
    ensures (forall k :: 0 <= k < |removals| ==> |removals[k].span.tokens| <= ShortRemoval) ==>
      kept == [] && adds == additions && rearrangement == map[] && ends == []
  {
    var s := SearchOf(removals, additions, ShortRemoval + 1, tokenize);
    SearchSound(removals, additions, ShortRemoval + 1, tokenize);
    SearchCovers(removals, additions, ShortRemoval + 1, tokenize);
    EndsSpanRemovals(removals, additions, ShortRemoval + 1, tokenize);
    assert forall k :: 0 <= k < |s.kept| ==> s.kept[k] in s.kept;
    assert forall k :: 0 <= k < |s.moved| ==> s.moved[k] in s.moved;
    RearrangementKeys(s.moved);
    forall a | a in rearrangement
      ensures exists k :: 0 <= k < |removals| && removals[k].span.a1 == a && |removals[k].span.tokens| > ShortRemoval
    {
      var j :| 0 <= j < |s.moved| && s.moved[j].removal.span.a1 == a;
      var k :| 0 <= k < |removals| && removals[k] == s.moved[j].removal;
    }
    if forall k :: 0 <= k < |removals| ==> |removals[k].span.tokens| <= ShortRemoval {
      SearchAllShort(removals, additions, ShortRemoval + 1, tokenize);
    }
  }

  /** Every key of the rearrangement map is the old offset of a long removal. */
  predicate MovedFrom(rearrangement: map<int, int>, removals: seq<Removal>) {
    forall a :: a in rearrangement ==>
      exists k :: 0 <= k < |removals| && removals[k].span.a1 == a && |removals[k].span.tokens| > ShortRemoval
  }

  // ---------------------------------------------------------------------
  // Ordering the actions

  /** `int(id.split('.')[1])`: the number after the first dot of an action id. */
  function IdKey(id: string): (r: Result<int, string>)
    ensures r.Ok? <==> |Split(id, ".")| >= 2 && ParseInt(Split(id, ".")[1]).Some?
    ensures r.Ok? ==> r.value == ParseInt(Split(id, ".")[1]).value
  {
    match PyIndex(Split(id, "."), 1)
    case None => Err("IndexError: list index out of range")
    case Some(part) =>
      match ParseInt(part)
      case None => Err("ValueError: invalid literal for int()")
      case Some(n) => Ok(n)
  }

  /** The first dot of `p + "." + rest` is the one after `p` when `p` has none. */
  lemma FirstDot(p: string, rest: string)
    requires !Contains(p, ".")
    ensures IndexOf(p + "." + rest, ".") == Some(|p|)
  {
    var s := p + "." + rest;
    assert OccursAt(s, ".", |p|);
    var v := IndexOf(s, ".");
    if v.value < |p| {
      assert s[v.value] == p[v.value];
      assert OccursAt(p, ".", v.value);
      ContainsIff(p, ".");
    }
  }

  /**
   * An id whose first part has no dot and whose second part is a decimal number (the whole rest,
   * or followed by more dotted parts) sorts under that number.
   */
  lemma IdKeyOf(p: string, n: nat, more: Option<string>)
    requires !Contains(p, ".")
    ensures var id := p + "." + NatToString(n) + (if more.Some? then "." + more.value else "");
      IdKey(id) == Ok(n)
  {
    var digits := NatToString(n);
    var rest := digits + (if more.Some? then "." + more.value else "");
    assert p + "." + NatToString(n) + (if more.Some? then "." + more.value else "") == p + "." + rest;
    SplitAtFirstDot(p, rest);
    NatToStringHasNo(n, ".");
    FirstPart(digits, more);
    ParseIntToString(n);
  }

  /** Splitting at the dot after a dot-free prefix gives the prefix, then the parts of the rest. */
  lemma SplitAtFirstDot(p: string, rest: string)
    requires !Contains(p, ".")
    ensures Split(p + "." + rest, ".") == [p] + Split(rest, ".")
  {
    FirstDot(p, rest);
    assert (p + "." + rest)[..|p|] == p;
    assert (p + "." + rest)[|p| + 1..] == rest;
  }

  /** The first part of a dot-free string, optionally followed by a dot and more, is that string. */
  lemma FirstPart(digits: string, more: Option<string>)
    requires !Contains(digits, ".")
    ensures Split(digits + (if more.Some? then "." + more.value else ""), ".")[0] == digits
  {
    var s := digits + (if more.Some? then "." + more.value else "");
    if more.Some? {
      assert s == digits + "." + more.value;
      SplitAtFirstDot(digits, more.value);
      assert Split(s, ".") == [digits] + Split(more.value, ".");
    } else {
      assert s == digits;
      SplitNoSep(digits, ".");
    }
  }

  /** The sort key of an action; only used once every id has a number. */
  function ActionKey(a: Action): real {
    match IdKey(a.id)
    case Ok(n) => n as real
    case Err(_) => 0.0
  }

  /** The error of the first id, in order, that has no number; the keys are computed front to back. */
  function FirstIdError(actions: seq<Action>): (r: Option<string>)
    ensures r.None? <==> forall i :: 0 <= i < |actions| ==> IdKey(actions[i].id).Ok?
  {
    if |actions| == 0 then None
    else
      match IdKey(actions[0].id)
      case Err(e) => Some(e)
      case Ok(_) =>
        assert forall i :: 0 < i < |actions| ==> actions[i] == actions[1..][i - 1];
        FirstIdError(actions[1..])
  }

  /** Every action id has a number, and the numbers never decrease along the actions. */
  predicate IdOrdered(actions: seq<Action>) {
    && (forall i :: 0 <= i < |actions| ==> IdKey(actions[i].id).Ok?)
    && (forall i, j :: 0 <= i < j < |actions| ==> IdKey(actions[i].id).value <= IdKey(actions[j].id).value)
  }

  /** Whether actions are in id order depends on their ids alone. */
  lemma IdOrderedSameIds(actions: seq<Action>, others: seq<Action>)
    requires IdOrdered(actions)
    requires |others| == |actions| && forall i :: 0 <= i < |actions| ==> others[i].id == actions[i].id
    ensures IdOrdered(others)
  {
  }

  /**
   * `sorted(updated_actions, key=...)`: Err when some id has no number after its first dot;
   * otherwise the same actions ordered by that number, where actions with the same number keep
   * their order (Python's sort is stable; `ActionKey` is the id number once every id has one).
   */
  function SortByIdKey(actions: seq<Action>): (r: Result<seq<Action>, string>)
    ensures r.Ok? <==> forall i :: 0 <= i < |actions| ==> IdKey(actions[i].id).Ok?
    ensures r.Ok? ==> multiset(r.value) == multiset(actions)
    ensures r.Ok? ==> forall i :: 0 <= i < |r.value| ==> IdKey(r.value[i].id).Ok?
    ensures r.Ok? ==> forall i, j :: 0 <= i < j < |r.value| ==>
      IdKey(r.value[i].id).value <= IdKey(r.value[j].id).value
    ensures r.Ok? ==> forall k :: KeyIs(r.value, ActionKey, k) == KeyIs(actions, ActionKey, k)
  {
    match FirstIdError(actions)
    case Some(e) => Err(e)
    case None =>
      var sorted := SortBy(actions, ActionKey);
      KeysOfSorted(actions, sorted);
      SortByStable(actions, ActionKey);
      Ok(sorted)
  }

  /** Sorting by `ActionKey` actions whose ids all have a number orders them by that number. */
  lemma KeysOfSorted(actions: seq<Action>, sorted: seq<Action>)
    requires forall i :: 0 <= i < |actions| ==> IdKey(actions[i].id).Ok?
    requires multiset(sorted) == multiset(actions) && SortedBy(sorted, ActionKey)
    ensures forall i :: 0 <= i < |sorted| ==> IdKey(sorted[i].id).Ok?
    ensures forall i, j :: 0 <= i < j < |sorted| ==> IdKey(sorted[i].id).value <= IdKey(sorted[j].id).value
  {
    forall i | 0 <= i < |sorted| ensures IdKey(sorted[i].id).Ok? {
      assert sorted[i] in multiset(actions);
    }
    forall i, j | 0 <= i < j < |sorted| ensures IdKey(sorted[i].id).value <= IdKey(sorted[j].id).value {
      assert ActionKey(sorted[i]) <= ActionKey(sorted[j]);
    }
  }

  // ---------------------------------------------------------------------
  // insert

  /**
   * `insert`: the actions of one revision and the new page state. Err is an exception of the
   * original: an index or key error in the phases, a failed page-state assertion, or an id
   * without a number. A result is a well-formed page state for the revision's page, and actions
   * in ascending order of their id numbers.
   */
  method Insert(rev: Revision, page: Page, trie: Trie, h: Helpers) returns (r: Result<(seq<Action>, Page), string>)
    ensures r.Ok? ==> WellFormed(r.value.1.actions)
    ensures r.Ok? ==> r.value.1.pageId == rev.pageId && r.value.1.pageTitle == rev.pageTitle
    ensures r.Ok? ==> IdOrdered(r.value.0)
  {
    var olds := SortedSet(page.actions.Keys);
    var revText := h.tokenize(rev.text);
    var scanned := Scan(rev, olds, page.actions, revText, h);
    if scanned.Err? {
      return Err(scanned.error);
    }
    var modified := set x | x in scanned.value.modified;
    var additions := KeepAdditions(scanned.value.additions, modified);
    var removals, removed := ConfirmRemovals(scanned.value.candidates, modified);
    var kept, adds, rearrangement, ends := Rearrange(removals, additions, h.tokenize);
    var actions := RegisterRemovals(kept, rev, h);
    var upd := CarryOver(olds, page.actions, modified, removed, rearrangement, rev.diff, h);
    var modifications := Modifications(scanned.value.modified, olds, page.actions, upd, rev, h);
    if modifications.Err? {
      return Err(modifications.error);
    }
    actions := actions + modifications.value.0;
    var pieces, restored, restoredUpd, restoredEnds := Restorations(adds, trie, modifications.value.1, rev, h, true);
    var added, addedUpd, addedEnds := AddComments(pieces, restoredUpd, rev, h);
    actions := actions + restored + added;
    var padded := PadEndTokens(ends + restoredEnds + addedEnds, addedUpd);
    if padded.Err? {
      return Err(padded.error);
    }
    if !WellFormed(padded.value) {
      return Err("AssertionError");
    }
    var sorted := SortByIdKey(actions);
    if sorted.Err? {
      return Err(sorted.error);
    }
    return Ok((sorted.value, Page(rev.pageId, rev.pageTitle, padded.value)));
  }
}
