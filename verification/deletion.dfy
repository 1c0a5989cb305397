/**
 * Splitting a deletion at the old action boundaries it spans (the same loop in both
 * constructors). Each piece lies inside one old action; whether a piece is a comment removal
 * or a modification is decided by the caller.
 */
module Deletion {
  import opened Wrappers
  import opened Text
  import opened PageState

  /** One piece of a deletion: the old action offset it falls in and the partial operation. */
  datatype Piece = Piece(act: int, span: Span)

  function Max(a: int, b: int): int { if a >= b then a else b }
  function Min(a: int, b: int): int { if a <= b then a else b }

  /** The conditions under which a deletion is split cleanly: a non-empty deletion inside a page starting at or before it. */
  predicate Splittable(op: DiffOp, oldActions: seq<int>) {
    && op.a1 < op.a2
    && StrictlySorted(oldActions)
    && |oldActions| > 0
    && oldActions[0] <= op.a1
  }

  /** The pieces cover `[ds, de)` without gap or overlap, in order, each non-empty. */
  predicate Tiles(pieces: seq<Piece>, ds: int, de: int) {
    && |pieces| > 0
    && pieces[0].span.a1 == ds
    && pieces[|pieces| - 1].span.a2 == de
    && (forall k :: 0 <= k < |pieces| ==> ds <= pieces[k].span.a1 < pieces[k].span.a2 <= de)
    && (forall k :: 0 <= k < |pieces| - 1 ==> pieces[k].span.a2 == pieces[k + 1].span.a1)
  }

  /** Piece `p`, the k-th, is the deletion restricted to the k-th old action from offset index `s`, with the matching tokens. */
  predicate PieceAt(op: DiffOp, oldActions: seq<int>, s: nat, p: Piece, k: nat) {
    && s + k < |oldActions|
    && p.act == oldActions[s + k]
    && p.span.a1 == Max(op.a1, p.act)
    && p.span.b1 == op.b1 && p.span.b2 == op.b2
    && p.span.tokens == PySlice(op.tokens, p.span.a1 - op.a1, p.span.a2 - op.a1)
  }

  /** What `find_pos` tells about the window `old_actions[s:e]` of a splittable deletion. */
  predicate Window(op: DiffOp, oldActions: seq<int>, s: nat, e: nat) {
    && op.a1 < op.a2
    && StrictlySorted(oldActions)
    && s < e <= |oldActions|
    && oldActions[s] <= op.a1
    && (forall j :: s < j < |oldActions| ==> oldActions[j] > op.a1)
    && oldActions[e - 1] <= op.a2
    && (forall j :: s <= j < e ==> oldActions[j] <= op.a2)
    && (e < |oldActions| ==> oldActions[e] > op.a2)
  }

  lemma WindowOf(op: DiffOp, oldActions: seq<int>)
    requires Splittable(op, oldActions)
    ensures Window(op, oldActions, FindPos(op.a1, oldActions), FindPos(op.a2, oldActions) + 1)
  {
    FindPosLast(op.a1, oldActions);
    FindPosLast(op.a2, oldActions);
    FindPosMonotone(op.a1, op.a2, oldActions);
    var e := FindPos(op.a2, oldActions) + 1;
    forall j | FindPos(op.a1, oldActions) <= j < e ensures oldActions[j] <= op.a2 {
      if j < e - 1 {
        assert oldActions[j] < oldActions[e - 1];
      }
    }
  }

  /** Piece `p`, the k-th, starts at `max(ds, act)` and ends at `min(de, next act)`, and its action does not start at `de`. */
  predicate Bounded(op: DiffOp, oldActions: seq<int>, p: Piece, s: nat, k: nat) {
    && s + k + 1 < |oldActions|
    && p.span.a1 == Max(op.a1, oldActions[s + k])
    && p.span.a2 == Min(op.a2, oldActions[s + k + 1])
    && oldActions[s + k] != op.a2
  }

  /** The state of the split loop after the pieces so far: each in place, the token offset at the end of the last. */
  predicate Progress(op: DiffOp, oldActions: seq<int>, s: nat, e: nat, pieces: seq<Piece>, startToken: int) {
    && Window(op, oldActions, s, e)
    && |pieces| <= e - s
    && (forall k :: 0 <= k < |pieces| ==> PieceAt(op, oldActions, s, pieces[k], k) && Bounded(op, oldActions, pieces[k], s, k))
    && startToken == (if |pieces| == 0 then 0 else pieces[|pieces| - 1].span.a2 - op.a1)
  }

  /**
   * The split loop from window index `ind` on, `startToken` tokens of the deletion already
   * handed out: stop at an action starting exactly at the deletion's end, fail when the next
   * offset is past the page, otherwise cut the piece `[max(ds, act), min(de, next act))`.
   */
  function SplitFrom(op: DiffOp, oldActions: seq<int>, s: nat, window: seq<int>, ind: nat, startToken: int, pieces: seq<Piece>)
    : Result<seq<Piece>, string>
    decreases |window| - ind
  {
    if ind >= |window| || window[ind] == op.a2 then Ok(pieces)
    else if s + ind + 1 >= |oldActions| then Err("IndexError: list index out of range")
    else
      var a1 := Max(op.a1, window[ind]);
      var a2 := Min(op.a2, oldActions[s + ind + 1]);
      var piece := Piece(window[ind], Span(a1, a2, op.b1, op.b2, PySlice(op.tokens, startToken, a2 - a1 + startToken)));
      SplitFrom(op, oldActions, s, window, ind + 1, startToken + a2 - a1, pieces + [piece])
  }

  /** The pieces of a deletion over the window `old_actions[find_pos(ds):find_pos(de) + 1]`. */
  function Split(op: DiffOp, oldActions: seq<int>): Result<seq<Piece>, string> {
    var s := FindPos(op.a1, oldActions);
    SplitFrom(op, oldActions, s, PySlice(oldActions, s, FindPos(op.a2, oldActions) + 1), 0, 0, [])
  }

  /**
   * The split loop of `insert`: one piece per old action from the one containing the start of
   * the deletion up to (not including) an action starting exactly at its end. Err is the
   * IndexError raised when the deletion runs past the last offset of the page.
   */
  method SplitDeletion(op: DiffOp, oldActions: seq<int>) returns (r: Result<seq<Piece>, string>)
    ensures r == Split(op, oldActions)
    ensures Splittable(op, oldActions) ==> (r.Ok? <==> op.a2 <= oldActions[|oldActions| - 1])
    ensures Splittable(op, oldActions) && r.Ok? ==> Tiles(r.value, op.a1, op.a2)
    ensures Splittable(op, oldActions) && r.Ok? ==>
      forall k :: 0 <= k < |r.value| ==> PieceAt(op, oldActions, FindPos(op.a1, oldActions), r.value[k], k)
  {
    var ds, de := op.a1, op.a2;
    var s := FindPos(ds, oldActions);
    var e := FindPos(de, oldActions) + 1;
    var window := PySlice(oldActions, s, e);
    var startToken := 0;
    var pieces: seq<Piece> := [];
    var ind := 0;
    if Splittable(op, oldActions) {
      SplitSound(op, oldActions);
    }
    while ind < |window|
      invariant 0 <= ind <= |window|
      invariant Split(op, oldActions) == SplitFrom(op, oldActions, s, window, ind, startToken, pieces)
    {
      var act := window[ind];
      if act == de {
        return Ok(pieces);
      }
      if s + ind + 1 >= |oldActions| {
        return Err("IndexError: list index out of range");
      }
      var a1 := Max(ds, act);
      var a2 := Min(de, oldActions[s + ind + 1]);
      var tokens := PySlice(op.tokens, startToken, a2 - a1 + startToken);
      var piece := Piece(act, Span(a1, a2, op.b1, op.b2, tokens));
      startToken := startToken + a2 - a1;
      pieces := pieces + [piece];
      ind := ind + 1;
    }
    return Ok(pieces);
  }

  /**
   * A splittable deletion splits without error exactly when it ends inside the page, and then
   * into a tiling of `[ds, de)` whose k-th piece lies in the k-th action of the window.
   */
  lemma SplitSound(op: DiffOp, oldActions: seq<int>)
    requires Splittable(op, oldActions)
    ensures Split(op, oldActions).Ok? <==> op.a2 <= oldActions[|oldActions| - 1]
    ensures Split(op, oldActions).Ok? ==> Tiles(Split(op, oldActions).value, op.a1, op.a2)
    ensures Split(op, oldActions).Ok? ==> forall k :: 0 <= k < |Split(op, oldActions).value| ==>
      PieceAt(op, oldActions, FindPos(op.a1, oldActions), Split(op, oldActions).value[k], k)
  {
    var s := FindPos(op.a1, oldActions);
    var e := FindPos(op.a2, oldActions) + 1;
    WindowOf(op, oldActions);
    SplitFromSound(op, oldActions, s, e, oldActions[s..e], [], 0);
  }

  /** What the split loop promises about its result: no error exactly when the deletion ends inside the page, and then a tiling whose k-th piece lies in the k-th action from `s`. */
  predicate SplitOutcome(op: DiffOp, oldActions: seq<int>, s: nat, r: Result<seq<Piece>, string>) {
    && |oldActions| > 0
    && (r.Ok? <==> op.a2 <= oldActions[|oldActions| - 1])
    && (r.Ok? ==> Tiles(r.value, op.a1, op.a2))
    && (r.Ok? ==> forall k :: 0 <= k < |r.value| ==> PieceAt(op, oldActions, s, r.value[k], k))
  }

  /** `Progress` over the window `old_actions[s:e]` the loop walks. */
  predicate Going(op: DiffOp, oldActions: seq<int>, s: nat, e: nat, window: seq<int>, pieces: seq<Piece>, startToken: int) {
    Progress(op, oldActions, s, e, pieces, startToken) && window == oldActions[s..e]
  }

  /**
   * Each turn of the split loop keeps `Going`; where it stops, the pieces tile or the deletion ran
   * past the page. The turns are stated as implications so that no call re-checks `Going` clause by clause.
   */
  lemma {:induction false} SplitFromSound(op: DiffOp, oldActions: seq<int>, s: nat, e: nat, window: seq<int>, pieces: seq<Piece>, startToken: int)
    ensures Going(op, oldActions, s, e, window, pieces, startToken) ==>
      SplitOutcome(op, oldActions, s, SplitFrom(op, oldActions, s, window, |pieces|, startToken, pieces))
    decreases |window| - |pieces|
  {
    var ind := |pieces|;
    if ind >= |window| || window[ind] == op.a2 {
      SplitStops(op, oldActions, s, e, window, pieces, startToken);
    } else if s + ind + 1 >= |oldActions| {
      SplitFails(op, oldActions, s, e, window, pieces, startToken);
    } else if Going(op, oldActions, s, e, window, pieces, startToken) {
      var act := window[ind];
      var a1 := Max(op.a1, act);
      var a2 := Min(op.a2, oldActions[s + ind + 1]);
      var piece := Piece(act, Span(a1, a2, op.b1, op.b2, PySlice(op.tokens, startToken, a2 - a1 + startToken)));
      NextPiece(op, oldActions, s, e, pieces, startToken, piece);
      SplitFromStep(op, oldActions, s, window, pieces, startToken);
      SplitFromSound(op, oldActions, s, e, window, pieces + [piece], startToken + a2 - a1);
      OutcomeCarries(op, oldActions, s, SplitFrom(op, oldActions, s, window, ind, startToken, pieces),
        SplitFrom(op, oldActions, s, window, ind + 1, startToken + a2 - a1, pieces + [piece]));
    }
  }

  lemma OutcomeCarries(op: DiffOp, oldActions: seq<int>, s: nat, r: Result<seq<Piece>, string>, r': Result<seq<Piece>, string>)
    ensures r == r' && SplitOutcome(op, oldActions, s, r') ==> SplitOutcome(op, oldActions, s, r)
  {
  }

  /** Where the loop stops without error, the pieces tile the deletion. */
  lemma SplitStops(op: DiffOp, oldActions: seq<int>, s: nat, e: nat, window: seq<int>, pieces: seq<Piece>, startToken: int)
    ensures Going(op, oldActions, s, e, window, pieces, startToken) && (|pieces| >= |window| || window[|pieces|] == op.a2) ==>
      SplitOutcome(op, oldActions, s, SplitFrom(op, oldActions, s, window, |pieces|, startToken, pieces))
  {
    if Going(op, oldActions, s, e, window, pieces, startToken) && (|pieces| >= |window| || window[|pieces|] == op.a2) {
      assert SplitFrom(op, oldActions, s, window, |pieces|, startToken, pieces) == Ok(pieces);
      SplitTiles(op, oldActions, s, e, pieces, startToken);
    }
  }

  /** Where the loop fails, the deletion runs past the page. */
  lemma SplitFails(op: DiffOp, oldActions: seq<int>, s: nat, e: nat, window: seq<int>, pieces: seq<Piece>, startToken: int)
    ensures (Going(op, oldActions, s, e, window, pieces, startToken)
        && |pieces| < |window| && window[|pieces|] != op.a2 && s + |pieces| + 1 >= |oldActions|) ==>
      SplitOutcome(op, oldActions, s, SplitFrom(op, oldActions, s, window, |pieces|, startToken, pieces))
  {
    if Going(op, oldActions, s, e, window, pieces, startToken)
        && |pieces| < |window| && window[|pieces|] != op.a2 && s + |pieces| + 1 >= |oldActions| {
      assert SplitFrom(op, oldActions, s, window, |pieces|, startToken, pieces).Err?;
      RunsPast(op, oldActions, s, e, pieces, startToken);
    }
  }

  /** A turn of the loop that cuts a piece hands the rest of the window to the next turn. */
  lemma SplitFromStep(op: DiffOp, oldActions: seq<int>, s: nat, window: seq<int>, pieces: seq<Piece>, startToken: int)
    requires |pieces| < |window| && window[|pieces|] != op.a2 && s + |pieces| + 1 < |oldActions|
    ensures var a1 := Max(op.a1, window[|pieces|]);
      var a2 := Min(op.a2, oldActions[s + |pieces| + 1]);
      var piece := Piece(window[|pieces|], Span(a1, a2, op.b1, op.b2, PySlice(op.tokens, startToken, a2 - a1 + startToken)));
      SplitFrom(op, oldActions, s, window, |pieces|, startToken, pieces)
        == SplitFrom(op, oldActions, s, window, |pieces| + 1, startToken + a2 - a1, pieces + [piece])
  {
  }

  /** The loop stops with an IndexError only when the deletion runs past the last old offset. */
  lemma RunsPast(op: DiffOp, oldActions: seq<int>, s: nat, e: nat, pieces: seq<Piece>, startToken: int)
    requires Progress(op, oldActions, s, e, pieces, startToken) && |pieces| < e - s
    requires s + |pieces| + 1 >= |oldActions| && oldActions[s + |pieces|] != op.a2
    ensures oldActions[|oldActions| - 1] < op.a2
  {
    assert oldActions[s + |pieces|] <= op.a2;
  }

  /** One turn of the split loop produces the next piece and advances the token offset to its end. */
  lemma NextPiece(op: DiffOp, oldActions: seq<int>, s: nat, e: nat, pieces: seq<Piece>, startToken: int, p: Piece)
    requires |pieces| < e - s && s + |pieces| + 1 < |oldActions| && oldActions[s + |pieces|] != op.a2
    requires p.act == oldActions[s + |pieces|]
    requires p.span.a1 == Max(op.a1, p.act) && p.span.a2 == Min(op.a2, oldActions[s + |pieces| + 1])
    requires p.span.b1 == op.b1 && p.span.b2 == op.b2
    requires p.span.tokens == PySlice(op.tokens, startToken, p.span.a2 - p.span.a1 + startToken)
    ensures Progress(op, oldActions, s, e, pieces, startToken) ==>
      Progress(op, oldActions, s, e, pieces + [p], startToken + p.span.a2 - p.span.a1)
  {
    if !Progress(op, oldActions, s, e, pieces, startToken) {
      return;
    }
    StartsWhereLastEnds(op, oldActions, s, e, pieces, startToken, p);
    var ind := |pieces|;
    assert PieceAt(op, oldActions, s, p, ind);
    assert Bounded(op, oldActions, p, s, ind);
    Extend(op, oldActions, s, pieces, p, pieces + [p]);
  }

  /** The next piece starts at the token offset where the previous one ended. */
  lemma StartsWhereLastEnds(op: DiffOp, oldActions: seq<int>, s: nat, e: nat, pieces: seq<Piece>, startToken: int, p: Piece)
    requires |pieces| < e - s && s + |pieces| < |oldActions| && p.act == oldActions[s + |pieces|]
    requires p.span.a1 == Max(op.a1, p.act)
    ensures Progress(op, oldActions, s, e, pieces, startToken) ==> startToken == p.span.a1 - op.a1
  {
    var ind := |pieces|;
    if !Progress(op, oldActions, s, e, pieces, startToken) {
    } else if ind == 0 {
      assert p.act <= op.a1;
    } else {
      assert Bounded(op, oldActions, pieces[ind - 1], s, ind - 1);
      assert p.act > op.a1;
      assert p.act <= op.a2;
    }
  }

  /** Appending a piece that fits at the next index keeps every piece in place. */
  lemma Extend(op: DiffOp, oldActions: seq<int>, s: nat, pieces: seq<Piece>, p: Piece, pieces': seq<Piece>)
    requires pieces' == pieces + [p]
    ensures |pieces'| == |pieces| + 1 && pieces'[|pieces|] == p
    ensures (&& (forall j :: 0 <= j < |pieces| ==> PieceAt(op, oldActions, s, pieces[j], j) && Bounded(op, oldActions, pieces[j], s, j))
             && PieceAt(op, oldActions, s, p, |pieces|) && Bounded(op, oldActions, p, s, |pieces|)) ==>
      forall k :: 0 <= k < |pieces'| ==>
        PieceAt(op, oldActions, s, pieces'[k], k) && Bounded(op, oldActions, pieces'[k], s, k)
  {
    if && (forall j :: 0 <= j < |pieces| ==> PieceAt(op, oldActions, s, pieces[j], j) && Bounded(op, oldActions, pieces[j], s, j))
       && PieceAt(op, oldActions, s, p, |pieces|) && Bounded(op, oldActions, p, s, |pieces|)
    {
      forall k | 0 <= k < |pieces'|
        ensures PieceAt(op, oldActions, s, pieces'[k], k) && Bounded(op, oldActions, pieces'[k], s, k)
      {
        if k < |pieces| {
          assert pieces'[k] == pieces[k];
        }
      }
    }
  }


  /** Each piece is non-empty and inside the deletion. */
  lemma PiecesInside(op: DiffOp, oldActions: seq<int>, pieces: seq<Piece>, s: nat, e: nat)
    requires Window(op, oldActions, s, e) && |pieces| <= e - s
    requires forall k :: 0 <= k < |pieces| ==> Bounded(op, oldActions, pieces[k], s, k)
    ensures forall k :: 0 <= k < |pieces| ==> op.a1 <= pieces[k].span.a1 < pieces[k].span.a2 <= op.a2
  {
    forall k | 0 <= k < |pieces|
      ensures op.a1 <= pieces[k].span.a1 < pieces[k].span.a2 <= op.a2
    {
      assert Bounded(op, oldActions, pieces[k], s, k);
      assert oldActions[s + k] <= op.a2;
      assert oldActions[s + k] < oldActions[s + k + 1];
      assert oldActions[s + k + 1] > op.a1;
    }
  }

  /** Consecutive pieces meet: each ends where the next starts. */
  lemma PiecesMeet(op: DiffOp, oldActions: seq<int>, pieces: seq<Piece>, s: nat, e: nat)
    requires Window(op, oldActions, s, e) && |pieces| <= e - s
    requires forall k :: 0 <= k < |pieces| ==> Bounded(op, oldActions, pieces[k], s, k)
    ensures forall k :: 0 <= k < |pieces| - 1 ==> pieces[k].span.a2 == pieces[k + 1].span.a1
  {
    forall k | 0 <= k < |pieces| - 1
      ensures pieces[k].span.a2 == pieces[k + 1].span.a1
    {
      assert Bounded(op, oldActions, pieces[k], s, k) && Bounded(op, oldActions, pieces[k + 1], s, k + 1);
      assert oldActions[s + k + 1] <= op.a2;
      assert oldActions[s + k + 1] > op.a1;
    }
  }

  /** The facts the loop leaves behind make the pieces a tiling and the deletion end inside the page. */
  lemma SplitTiles(op: DiffOp, oldActions: seq<int>, s: nat, e: nat, pieces: seq<Piece>, startToken: int)
    requires Progress(op, oldActions, s, e, pieces, startToken)
    requires |pieces| < e - s ==> oldActions[s + |pieces|] == op.a2
    ensures Tiles(pieces, op.a1, op.a2)
    ensures op.a2 <= oldActions[|oldActions| - 1]
  {
    var n := |pieces|;
    if n == 0 {
      assert false;
    }
    PiecesInside(op, oldActions, pieces, s, e);
    PiecesMeet(op, oldActions, pieces, s, e);
    assert Bounded(op, oldActions, pieces[0], s, 0) && Bounded(op, oldActions, pieces[n - 1], s, n - 1);
    if n == e - s {
      assert oldActions[e] > op.a2;
    }
  }
}
