/**
 * The phases of `insert` that the current and the older constructor share: matching a
 * removal inside an addition, carrying old offsets over to the new revision, registering
 * modifications, restorations and additions, and padding the page state with the end offsets
 * of new actions.
 */
module InsertPhases {
  import opened Wrappers
  import opened Text
  import opened PageState

  // ---------------------------------------------------------------------
  // Matching a removal inside an addition

  /** A removal found inside addition `ind`, at token offsets `[startTok, endTok)` of that addition. */
  datatype Match = Match(ind: nat, startTok: int, endTok: int)

  /** `removed in inserted`. */
  predicate Holds(insert: Span, removal: Removal) {
    Contains(TokensText(insert.tokens), TokensText(removal.span.tokens))
  }

  /**
   * Where a contained removal sits in an addition: the start is the number of tokens of the
   * addition's text before the first occurrence, the end adds the removal's token count.
   */
  function MatchOffsets(insert: Span, removal: Removal, tokenize: string -> seq<Token>): (r: (int, int))
    requires Holds(insert, removal)
    ensures 0 <= r.0 <= r.1 && r.1 - r.0 == |removal.span.tokens|
  {
    var inserted := TokensText(insert.tokens);
    var startPos := IndexOf(inserted, TokensText(removal.span.tokens)).value;
    var startTok := |tokenize(inserted[..startPos])|;
    (startTok, startTok + |removal.span.tokens|)
  }

  /**
   * What is left of an addition around a matched removal: the part before it unless the match
   * starts at token 0, and the part after it unless the match ends at the last token.
   */
  function AroundMatch(insert: Span, startTok: int, endTok: int): (pieces: seq<Span>)
    ensures |pieces| <= 2
  {
    (if startTok != 0
     then [insert.(b2 := startTok + insert.b1, tokens := PySlice(insert.tokens, 0, startTok))]
     else [])
    + (if endTok != |insert.tokens|
       then [insert.(b1 := endTok + insert.b1, tokens := PySlice(insert.tokens, endTok, |insert.tokens|))]
       else [])
  }

  /**
   * The pieces left around a match that lies inside the addition, with the matched tokens put
   * back between them, give the addition's tokens back; the pieces keep the addition's old
   * offsets and cover its new offsets before and after the match.
   */
  lemma AroundMatchRestores(insert: Span, startTok: int, endTok: int)
    requires 0 <= startTok <= endTok <= |insert.tokens|
    ensures var pieces := AroundMatch(insert, startTok, endTok);
      var before := if startTok != 0 then pieces[0].tokens else [];
      var after := if endTok != |insert.tokens| then pieces[|pieces| - 1].tokens else [];
      && before + insert.tokens[startTok..endTok] + after == insert.tokens
      && (forall p :: p in pieces ==> p.a1 == insert.a1 && p.a2 == insert.a2 && |p.tokens| > 0)
      && (startTok != 0 ==> pieces[0].b1 == insert.b1 && pieces[0].b2 == insert.b1 + startTok)
      && (endTok != |insert.tokens| ==> pieces[|pieces| - 1].b1 == insert.b1 + endTok && pieces[|pieces| - 1].b2 == insert.b2)
  {
    var t := insert.tokens;
    var pieces := AroundMatch(insert, startTok, endTok);
    var front := if startTok != 0 then [insert.(b2 := startTok + insert.b1, tokens := t[..startTok])] else [];
    var back := if endTok != |t| then [insert.(b1 := endTok + insert.b1, tokens := t[endTok..])] else [];
    assert PySlice(t, 0, startTok) == t[..startTok] && PySlice(t, endTok, |t|) == t[endTok..];
    assert pieces == front + back;
    var before := if startTok != 0 then pieces[0].tokens else [];
    var after := if endTok != |t| then pieces[|pieces| - 1].tokens else [];
    assert before == t[..startTok];
    assert after == t[endTok..];
    assert t[..startTok] + t[startTok..endTok] + t[endTok..] == t;
  }

  /** The index of the first addition from `from` on that holds the removal. */
  function FirstHolding(additions: seq<Span>, removal: Removal, from: nat): (r: Option<nat>)
    decreases |additions| - from
    ensures r.Some? ==> from <= r.value < |additions| && Holds(additions[r.value], removal)
    ensures forall i :: from <= i < |additions| && (r.None? || i < r.value) ==> !Holds(additions[i], removal)
  {
    if from >= |additions| then None
    else if Holds(additions[from], removal) then Some(from)
    else FirstHolding(additions, removal, from + 1)
  }

  /** The match of a removal in the additions and the additions left around it. */
  function MatchOf(removal: Removal, additions: seq<Span>, tokenize: string -> seq<Token>): (r: (Option<Match>, seq<Span>))
    ensures r.0.None? <==> forall i :: 0 <= i < |additions| ==> !Holds(additions[i], removal)
    ensures r.0.Some? ==> r.0.value.ind < |additions| && Holds(additions[r.0.value.ind], removal)
  {
    match FirstHolding(additions, removal, 0)
    case None => (None, additions)
    case Some(ind) =>
      var offsets := MatchOffsets(additions[ind], removal, tokenize);
      (Some(Match(ind, offsets.0, offsets.1)),
       additions[..ind] + AroundMatch(additions[ind], offsets.0, offsets.1) + additions[ind + 1..])
  }

  /**
   * The inner loop of the rearrangement search: the first addition whose text contains the
   * removed text is replaced by the pieces around the match, the other additions stay in order.
   */
  /**
   * The match is the first addition holding the removal, at the offsets of the removal's first
   * occurrence, and the additions are updated only by cutting the match out of that addition.
   */
  lemma MatchOfFirst(removal: Removal, additions: seq<Span>, tokenize: string -> seq<Token>)
    ensures var (found, updated) := MatchOf(removal, additions, tokenize);
      && (found.None? <==> forall i :: 0 <= i < |additions| ==> !Holds(additions[i], removal))
      && (found.None? ==> updated == additions)
      && (found.Some? ==>
            var m := found.value;
            && m.ind < |additions|
            && Holds(additions[m.ind], removal)
            && (forall i :: 0 <= i < m.ind ==> !Holds(additions[i], removal))
            && (m.startTok, m.endTok) == MatchOffsets(additions[m.ind], removal, tokenize)
            && updated == additions[..m.ind] + AroundMatch(additions[m.ind], m.startTok, m.endTok) + additions[m.ind + 1..])
  {
  }

  /** A removal first held by addition `ind` is matched there. */
  lemma FoundAt(removal: Removal, additions: seq<Span>, tokenize: string -> seq<Token>, ind: nat)
    requires ind < |additions| && Holds(additions[ind], removal)
    requires FirstHolding(additions, removal, 0) == FirstHolding(additions, removal, ind)
    ensures var offsets := MatchOffsets(additions[ind], removal, tokenize);
      MatchOf(removal, additions, tokenize) ==
        (Some(Match(ind, offsets.0, offsets.1)), additions[..ind] + AroundMatch(additions[ind], offsets.0, offsets.1) + additions[ind + 1..])
  {
  }

  method MatchRemoval(removal: Removal, additions: seq<Span>, tokenize: string -> seq<Token>)
    returns (found: Option<Match>, updated: seq<Span>)
    ensures (found, updated) == MatchOf(removal, additions, tokenize)
    ensures found.None? <==> forall i :: 0 <= i < |additions| ==> !Holds(additions[i], removal)
    ensures found.None? ==> updated == additions
    ensures found.Some? ==>
      var m := found.value;
      && m.ind < |additions|
      && Holds(additions[m.ind], removal)
      && (forall i :: 0 <= i < m.ind ==> !Holds(additions[i], removal))
      && (m.startTok, m.endTok) == MatchOffsets(additions[m.ind], removal, tokenize)
      && updated == additions[..m.ind] + AroundMatch(additions[m.ind], m.startTok, m.endTok) + additions[m.ind + 1..]
  {
    var removed := TokensText(removal.span.tokens);
    updated := [];
    var ind := 0;
    while ind < |additions|
      invariant 0 <= ind <= |additions|
      invariant updated == additions[..ind]
      invariant forall i :: 0 <= i < ind ==> !Holds(additions[i], removal)
      invariant FirstHolding(additions, removal, 0) == FirstHolding(additions, removal, ind)
    {
      var insert := additions[ind];
      var inserted := TokensText(insert.tokens);
      if Contains(inserted, removed) {
        var startPos := IndexOf(inserted, removed).value;
        var startTok := |tokenize(inserted[..startPos])|;
        var endTok := startTok + |removal.span.tokens|;
        var tmpIns := AroundMatch(insert, startTok, endTok);
        assert (startTok, endTok) == MatchOffsets(insert, removal, tokenize);
        updated := updated + tmpIns + additions[ind + 1..];
        found := Some(Match(ind, startTok, endTok));
        FoundAt(removal, additions, tokenize, ind);
        MatchOfFirst(removal, additions, tokenize);
        return;
      }
      assert additions[..ind + 1] == additions[..ind] + [insert];
      updated := updated + [insert];
      ind := ind + 1;
    }
    assert additions[..ind] == additions;
    found := None;
    MatchOfFirst(removal, additions, tokenize);
  }

  // ---------------------------------------------------------------------
  // The rearrangement search

  /** A removal found in `insert`, the addition left at its turn, at `m`. */
  datatype Moved = Moved(removal: Removal, insert: Span, m: Match)

  /**
   * `MatchRemoval` as one turn of the rearrangement search sees it: the move it makes, if any,
   * and the additions left.
   */
  method MatchMove(removal: Removal, adds: seq<Span>, tokenize: string -> seq<Token>) returns (mv: Option<Moved>, updated: seq<Span>)
    ensures var found := MatchOf(removal, adds, tokenize);
      && updated == found.1
      && (mv.None? <==> found.0.None?)
      && (mv.Some? ==> mv.value == Moved(removal, adds[found.0.value.ind], found.0.value))
  {
    var found;
    found, updated := MatchRemoval(removal, adds, tokenize);
    if found.None? {
      mv := None;
    } else {
      mv := Some(Moved(removal, adds[found.value.ind], found.value));
    }
  }

  /** What the rearrangement search has produced so far: the removals kept, the additions left and the removals moved. */
  datatype Search = Search(kept: seq<Removal>, adds: seq<Span>, moved: seq<Moved>)

  /**
   * One turn of the search: a removal of fewer than `minSearched` tokens is passed over, one
   * found in the additions left is moved and its addition is cut around it, and any other is kept.
   */
  function SearchStep(s: Search, removal: Removal, minSearched: nat, tokenize: string -> seq<Token>): Search {
    if |removal.span.tokens| < minSearched then s
    else
      var found := MatchOf(removal, s.adds, tokenize);
      if found.0.None? then s.(kept := s.kept + [removal])
      else Search(s.kept, found.1, s.moved + [Moved(removal, s.adds[found.0.value.ind], found.0.value)])
  }

  /** The search over the removals in order, starting from the additions. */
  function SearchOf(removals: seq<Removal>, additions: seq<Span>, minSearched: nat, tokenize: string -> seq<Token>): Search
    decreases |removals|
  {
    if |removals| == 0 then Search([], additions, [])
    else SearchStep(SearchOf(removals[..|removals| - 1], additions, minSearched, tokenize), removals[|removals| - 1], minSearched, tokenize)
  }

  /** The new token range `[start, end)` a moved removal covers. */
  function NewRange(mv: Moved): (int, int) {
    (mv.m.startTok + mv.insert.b1, mv.m.endTok + mv.insert.b1)
  }

  /** The ranges of the moved removals, in order (`end_tokens`). */
  function EndsOf(moved: seq<Moved>): (r: seq<(int, int)>)
    ensures |r| == |moved|
  {
    if |moved| == 0 then [] else EndsOf(moved[..|moved| - 1]) + [NewRange(moved[|moved| - 1])]
  }

  /** Each moved removal's old offset mapped to where it starts now; a later move of the same offset wins. */
  function RearrangementOf(moved: seq<Moved>): map<int, int> {
    if |moved| == 0 then map[]
    else
      var last := moved[|moved| - 1];
      RearrangementOf(moved[..|moved| - 1])[last.removal.span.a1 := NewRange(last).0]
  }

  /** The rearranged offsets are exactly the old offsets of the moved removals. */
  lemma {:induction false} RearrangementKeys(moved: seq<Moved>)
    ensures forall a :: a in RearrangementOf(moved) <==> exists k :: 0 <= k < |moved| && moved[k].removal.span.a1 == a
    decreases |moved|
  {
    if |moved| > 0 {
      RearrangementKeys(moved[..|moved| - 1]);
      assert forall k :: 0 <= k < |moved| - 1 ==> moved[..|moved| - 1][k] == moved[k];
    }
  }

  /** The removals with at least `minSearched` tokens, in order. */
  function Searchable(removals: seq<Removal>, minSearched: nat): (r: seq<Removal>)
    ensures |r| <= |removals|
  {
    if |removals| == 0 then []
    else
      var last := removals[|removals| - 1];
      Searchable(removals[..|removals| - 1], minSearched) + (if |last.span.tokens| < minSearched then [] else [last])
  }

  /** The text of `x` is a piece of the text of one of the additions. */
  ghost predicate Inside(x: Span, additions: seq<Span>) {
    exists i, lo: nat, hi: nat :: 0 <= i < |additions| && lo <= hi <= |TokensText(additions[i].tokens)| &&
      TokensText(additions[i].tokens)[lo..hi] == TokensText(x.tokens)
  }

  lemma {:induction false} TokensTextAppend(a: seq<Token>, b: seq<Token>)
    ensures TokensText(a + b) == TokensText(a) + TokensText(b)
    decreases |b|
  {
    if |b| > 0 {
      var b' := b[..|b| - 1];
      assert (a + b)[..|a + b| - 1] == a + b';
      TokensTextAppend(a, b');
    } else {
      assert a + b == a;
    }
  }

  /** The text of a slice of tokens is a piece of the text of all of them. */
  lemma SliceTextInside(t: seq<Token>, i: int, j: int)
    ensures exists lo: nat, hi: nat :: lo <= hi <= |TokensText(t)| && TokensText(t)[lo..hi] == TokensText(PySlice(t, i, j))
  {
    var lo, hi := PyBound(i, |t|), PyBound(j, |t|);
    if lo >= hi {
      assert TokensText(t)[0..0] == TokensText(PySlice(t, i, j));
    } else {
      TextSplitThree(t, lo, hi);
      var a, b, c := TokensText(t[..lo]), TokensText(t[lo..hi]), TokensText(t[hi..]);
      MiddleOf(a, b, c);
      assert PySlice(t, i, j) == t[lo..hi];
      assert TokensText(t)[|a|..|a| + |b|] == TokensText(PySlice(t, i, j));
    }
  }

  /** The text of tokens cut in three is the texts of the three parts. */
  lemma TextSplitThree(t: seq<Token>, lo: nat, hi: nat)
    requires lo <= hi <= |t|
    ensures TokensText(t) == TokensText(t[..lo]) + TokensText(t[lo..hi]) + TokensText(t[hi..])
  {
    CutInThree(t, lo, hi);
    TextOfThree(t[..lo], t[lo..hi], t[hi..]);
  }

  lemma CutInThree(t: seq<Token>, lo: nat, hi: nat)
    requires lo <= hi <= |t|
    ensures t == t[..lo] + t[lo..hi] + t[hi..]
  {
  }

  lemma TextOfThree(x: seq<Token>, y: seq<Token>, z: seq<Token>)
    ensures TokensText(x + y + z) == TokensText(x) + TokensText(y) + TokensText(z)
  {
    TokensTextAppend(x + y, z);
    TokensTextAppend(x, y);
  }

  lemma MiddleOf(a: string, b: string, c: string)
    ensures (a + b + c)[|a|..|a| + |b|] == b
  {
    forall k | 0 <= k < |b| ensures (a + b + c)[|a|..|a| + |b|][k] == b[k] {
      assert (a + b + c)[|a| + k] == b[k];
    }
  }

  /** A piece of an addition that lies inside the original additions lies inside them too. */
  lemma PieceInside(insert: Span, piece: Span, additions: seq<Span>, i: int, j: int)
    requires Inside(insert, additions) && piece.tokens == PySlice(insert.tokens, i, j)
    ensures Inside(piece, additions)
  {
    var k, lo: nat, hi: nat :| 0 <= k < |additions| && lo <= hi <= |TokensText(additions[k].tokens)| &&
      TokensText(additions[k].tokens)[lo..hi] == TokensText(insert.tokens);
    SliceTextInside(insert.tokens, i, j);
    var lo2: nat, hi2: nat :| lo2 <= hi2 <= |TokensText(insert.tokens)| && TokensText(insert.tokens)[lo2..hi2] == TokensText(piece.tokens);
    var whole := TokensText(additions[k].tokens);
    SliceOfSlice(whole, lo, hi, lo2, hi2);
    assert whole[lo + lo2..lo + hi2] == TokensText(piece.tokens);
  }

  lemma SliceOfSlice(s: string, lo: nat, hi: nat, lo2: nat, hi2: nat)
    requires lo <= hi <= |s| && lo2 <= hi2 <= hi - lo
    ensures s[lo..hi][lo2..hi2] == s[lo + lo2..lo + hi2]
  {
    forall i | 0 <= i < hi2 - lo2
      ensures s[lo..hi][lo2..hi2][i] == s[lo + lo2..lo + hi2][i]
    {
      assert s[lo..hi][lo2 + i] == s[lo + lo2 + i];
    }
  }

  /** A removal held by a piece of the original additions is held by one of them. */
  lemma HeldInside(x: Span, additions: seq<Span>, removal: Removal)
    requires Inside(x, additions) && Holds(x, removal)
    ensures exists i :: 0 <= i < |additions| && Holds(additions[i], removal)
  {
    var k, lo: nat, hi: nat :| 0 <= k < |additions| && lo <= hi <= |TokensText(additions[k].tokens)| &&
      TokensText(additions[k].tokens)[lo..hi] == TokensText(x.tokens);
    ContainsWithin(TokensText(additions[k].tokens), TokensText(removal.span.tokens), lo, hi);
  }

  /** Cutting a match out of additions that lie inside the originals leaves additions inside them. */
  lemma MatchOfInside(removal: Removal, adds: seq<Span>, tokenize: string -> seq<Token>, additions: seq<Span>)
    requires forall x :: x in adds ==> Inside(x, additions)
    ensures forall x :: x in MatchOf(removal, adds, tokenize).1 ==> Inside(x, additions)
  {
    var found := MatchOf(removal, adds, tokenize);
    if found.0.Some? {
      var m := found.0.value;
      var insert := adds[m.ind];
      var around := AroundMatch(insert, m.startTok, m.endTok);
      assert found.1 == adds[..m.ind] + around + adds[m.ind + 1..];
      forall x | x in around ensures Inside(x, additions) {
        if m.startTok != 0 && x == around[0] {
          PieceInside(insert, x, additions, 0, m.startTok);
        } else {
          PieceInside(insert, x, additions, m.endTok, |insert.tokens|);
        }
      }
    }
  }

  /**
   * What each outcome of the search holds: every kept removal is a searchable removal, every
   * moved one is a searchable removal held by the addition it was cut from, at the offsets of its
   * first occurrence, and every addition left, including those cut, is a piece of an original one.
   */
  lemma {:induction false} SearchSound(removals: seq<Removal>, additions: seq<Span>, minSearched: nat, tokenize: string -> seq<Token>)
    ensures var s := SearchOf(removals, additions, minSearched, tokenize);
      && (forall r :: r in s.kept ==> r in removals && |r.span.tokens| >= minSearched)
      && (forall mv :: mv in s.moved ==>
            && mv.removal in removals && |mv.removal.span.tokens| >= minSearched
            && Holds(mv.insert, mv.removal) && Inside(mv.insert, additions)
            && (mv.m.startTok, mv.m.endTok) == MatchOffsets(mv.insert, mv.removal, tokenize))
      && (forall x :: x in s.adds ==> Inside(x, additions))
    decreases |removals|
  {
    if |removals| == 0 {
      forall x | x in additions ensures Inside(x, additions) {
        var i :| 0 <= i < |additions| && additions[i] == x;
        assert TokensText(additions[i].tokens)[0..|TokensText(x.tokens)|] == TokensText(x.tokens);
      }
    } else {
      var init := removals[..|removals| - 1];
      SearchSound(init, additions, minSearched, tokenize);
      var prev := SearchOf(init, additions, minSearched, tokenize);
      MatchOfInside(removals[|removals| - 1], prev.adds, tokenize, additions);
      assert forall r :: r in init ==> r in removals;
    }
  }

  /**
   * The search accounts for every searchable removal exactly once: kept and moved removals
   * together number the searchable ones, and each searchable removal is kept or moved.
   */
  lemma {:induction false} SearchCovers(removals: seq<Removal>, additions: seq<Span>, minSearched: nat, tokenize: string -> seq<Token>)
    ensures var s := SearchOf(removals, additions, minSearched, tokenize);
      && |s.kept| + |s.moved| == |Searchable(removals, minSearched)|
      && (forall k :: 0 <= k < |removals| && |removals[k].span.tokens| >= minSearched ==>
            removals[k] in s.kept || exists mv :: mv in s.moved && mv.removal == removals[k])
    decreases |removals|
  {
    if |removals| > 0 {
      var n := |removals| - 1;
      var init := removals[..n];
      SearchCovers(init, additions, minSearched, tokenize);
      var prev := SearchOf(init, additions, minSearched, tokenize);
      var s := SearchOf(removals, additions, minSearched, tokenize);
      forall k | 0 <= k < |removals| && |removals[k].span.tokens| >= minSearched
        ensures removals[k] in s.kept || exists mv :: mv in s.moved && mv.removal == removals[k]
      {
        if k < n {
          assert init[k] == removals[k];
          if removals[k] !in prev.kept {
            var mv :| mv in prev.moved && mv.removal == removals[k];
            assert mv in s.moved;
          }
        } else if s.kept == prev.kept {
          assert s.moved[|s.moved| - 1].removal == removals[k];
        }
      }
    }
  }

  /** A searchable removal that no original addition holds is kept. */
  lemma SearchUnheld(removals: seq<Removal>, additions: seq<Span>, minSearched: nat, tokenize: string -> seq<Token>, k: nat)
    requires k < |removals| && |removals[k].span.tokens| >= minSearched
    requires forall i :: 0 <= i < |additions| ==> !Holds(additions[i], removals[k])
    ensures removals[k] in SearchOf(removals, additions, minSearched, tokenize).kept
  {
    SearchSound(removals, additions, minSearched, tokenize);
    SearchCovers(removals, additions, minSearched, tokenize);
    var s := SearchOf(removals, additions, minSearched, tokenize);
    if removals[k] !in s.kept {
      var mv :| mv in s.moved && mv.removal == removals[k];
      HeldInside(mv.insert, additions, removals[k]);
    }
  }

  /** Removals with distinct old offsets are kept or moved, never both. */
  lemma {:induction false} SearchDisjoint(removals: seq<Removal>, additions: seq<Span>, minSearched: nat, tokenize: string -> seq<Token>)
    requires forall i, j :: 0 <= i < j < |removals| ==> removals[i].span.a1 != removals[j].span.a1
    ensures var s := SearchOf(removals, additions, minSearched, tokenize);
      forall mv :: mv in s.moved ==> mv.removal !in s.kept
    decreases |removals|
  {
    if |removals| > 0 {
      var n := |removals| - 1;
      var init := removals[..n];
      SearchDisjoint(init, additions, minSearched, tokenize);
      SearchSound(init, additions, minSearched, tokenize);
      var prev := SearchOf(init, additions, minSearched, tokenize);
      assert forall j :: 0 <= j < n ==> init[j].span.a1 != removals[n].span.a1;
      assert removals[n] !in init;
    }
  }

  /** With distinct old offsets, a rearranged old offset belongs to a searchable removal that is not kept. */
  lemma SearchRearrangedNotKept(removals: seq<Removal>, additions: seq<Span>, minSearched: nat, tokenize: string -> seq<Token>, k: nat)
    requires forall i, j :: 0 <= i < j < |removals| ==> removals[i].span.a1 != removals[j].span.a1
    requires k < |removals| && removals[k].span.a1 in RearrangementOf(SearchOf(removals, additions, minSearched, tokenize).moved)
    ensures |removals[k].span.tokens| >= minSearched
    ensures removals[k] !in SearchOf(removals, additions, minSearched, tokenize).kept
  {
    SearchSound(removals, additions, minSearched, tokenize);
    SearchDisjoint(removals, additions, minSearched, tokenize);
    var s := SearchOf(removals, additions, minSearched, tokenize);
    RearrangementKeys(s.moved);
    var j :| 0 <= j < |s.moved| && s.moved[j].removal.span.a1 == removals[k].span.a1;
    var mv := s.moved[j];
    assert mv in s.moved;
    var i :| 0 <= i < |removals| && removals[i] == mv.removal;
    assert i == k;
  }

  /** A searchable removal that is not kept has its old offset rearranged. */
  lemma SearchNotKeptRearranged(removals: seq<Removal>, additions: seq<Span>, minSearched: nat, tokenize: string -> seq<Token>, k: nat)
    requires k < |removals| && |removals[k].span.tokens| >= minSearched
    requires removals[k] !in SearchOf(removals, additions, minSearched, tokenize).kept
    ensures removals[k].span.a1 in RearrangementOf(SearchOf(removals, additions, minSearched, tokenize).moved)
  {
    SearchCovers(removals, additions, minSearched, tokenize);
    var s := SearchOf(removals, additions, minSearched, tokenize);
    var mv :| mv in s.moved && mv.removal == removals[k];
    var j :| 0 <= j < |s.moved| && s.moved[j] == mv;
    RearrangementKeys(s.moved);
  }

  /**
   * With distinct old offsets, a searchable removal is kept exactly when its old offset is not
   * rearranged; a removal too short to be searched is neither.
   */
  lemma SearchPartition(removals: seq<Removal>, additions: seq<Span>, minSearched: nat, tokenize: string -> seq<Token>, k: nat)
    requires forall i, j :: 0 <= i < j < |removals| ==> removals[i].span.a1 != removals[j].span.a1
    requires k < |removals|
    ensures var s := SearchOf(removals, additions, minSearched, tokenize);
      if |removals[k].span.tokens| >= minSearched
      then (removals[k] in s.kept <==> removals[k].span.a1 !in RearrangementOf(s.moved))
      else removals[k] !in s.kept && removals[k].span.a1 !in RearrangementOf(s.moved)
  {
    var s := SearchOf(removals, additions, minSearched, tokenize);
    SearchSound(removals, additions, minSearched, tokenize);
    if removals[k].span.a1 in RearrangementOf(s.moved) {
      SearchRearrangedNotKept(removals, additions, minSearched, tokenize, k);
    } else if |removals[k].span.tokens| >= minSearched && removals[k] !in s.kept {
      SearchNotKeptRearranged(removals, additions, minSearched, tokenize, k);
    }
  }

  /** The search over one more removal is one more step. */
  lemma SearchNext(removals: seq<Removal>, additions: seq<Span>, minSearched: nat, tokenize: string -> seq<Token>, i: nat)
    requires i < |removals|
    ensures SearchOf(removals[..i + 1], additions, minSearched, tokenize) ==
      SearchStep(SearchOf(removals[..i], additions, minSearched, tokenize), removals[i], minSearched, tokenize)
  {
    assert removals[..i + 1][..i] == removals[..i];
  }

  /** One more move adds its range at the end and maps its old offset to its new start. */
  lemma MovedAppend(moved: seq<Moved>, mv: Moved)
    ensures EndsOf(moved + [mv]) == EndsOf(moved) + [NewRange(mv)]
    ensures RearrangementOf(moved + [mv]) == RearrangementOf(moved)[mv.removal.span.a1 := NewRange(mv).0]
  {
    assert (moved + [mv])[..|moved|] == moved;
  }

  /** With every removal too short to search, nothing is kept or moved and the additions stay. */
  lemma {:induction false} SearchAllShort(removals: seq<Removal>, additions: seq<Span>, minSearched: nat, tokenize: string -> seq<Token>)
    requires forall k :: 0 <= k < |removals| ==> |removals[k].span.tokens| < minSearched
    ensures SearchOf(removals, additions, minSearched, tokenize) == Search([], additions, [])
    decreases |removals|
  {
    if |removals| > 0 {
      SearchAllShort(removals[..|removals| - 1], additions, minSearched, tokenize);
    }
  }

  /** With no additions, exactly the searchable removals are kept, in order, and none is moved. */
  lemma {:induction false} SearchNoAdditions(removals: seq<Removal>, minSearched: nat, tokenize: string -> seq<Token>)
    ensures SearchOf(removals, [], minSearched, tokenize) == Search(Searchable(removals, minSearched), [], [])
    decreases |removals|
  {
    if |removals| > 0 {
      SearchNoAdditions(removals[..|removals| - 1], minSearched, tokenize);
    }
  }

  /** Every removal is searchable when there is no minimum. */
  lemma {:induction false} SearchableAll(removals: seq<Removal>)
    ensures Searchable(removals, 0) == removals
    decreases |removals|
  {
    if |removals| > 0 {
      SearchableAll(removals[..|removals| - 1]);
    }
  }

  /** Each moved removal's new range has as many tokens as the removal. */
  lemma EndsSpanRemovals(removals: seq<Removal>, additions: seq<Span>, minSearched: nat, tokenize: string -> seq<Token>)
    ensures var s := SearchOf(removals, additions, minSearched, tokenize);
      forall k :: 0 <= k < |s.moved| ==> EndsOf(s.moved)[k].1 - EndsOf(s.moved)[k].0 == |s.moved[k].removal.span.tokens|
  {
    var s := SearchOf(removals, additions, minSearched, tokenize);
    SearchSound(removals, additions, minSearched, tokenize);
    EndsAreRanges(s.moved);
    forall k | 0 <= k < |s.moved| ensures EndsOf(s.moved)[k].1 - EndsOf(s.moved)[k].0 == |s.moved[k].removal.span.tokens| {
      assert s.moved[k] in s.moved;
    }
  }

  lemma {:induction false} EndsAreRanges(moved: seq<Moved>)
    ensures forall k :: 0 <= k < |moved| ==> EndsOf(moved)[k] == NewRange(moved[k])
    decreases |moved|
  {
    if |moved| > 0 {
      EndsAreRanges(moved[..|moved| - 1]);
    }
  }

  // ---------------------------------------------------------------------
  // Carrying old offsets over

  /** One turn of the carry-over loop for old offset `act`. */
  function CarryStep(upd: Actions, act: int, page: Actions, modified: set<int>, removed: set<int>,
                     rearrangement: map<int, int>, diff: seq<DiffOp>, h: Helpers): Actions
    requires act in page
  {
    var u := if act !in modified && act !in removed then upd[h.locate(act, diff, NoBound) := page[act]] else upd;
    if act in rearrangement then u[rearrangement[act] := page[act]] else u
  }

  /** The page state built by the carry-over loop over `olds`. */
  function CarriedOver(olds: seq<int>, page: Actions, modified: set<int>, removed: set<int>,
                       rearrangement: map<int, int>, diff: seq<DiffOp>, h: Helpers): Actions
    requires forall i :: 0 <= i < |olds| ==> olds[i] in page
  {
    if |olds| == 0 then map[]
    else
      CarryStep(CarriedOver(olds[..|olds| - 1], page, modified, removed, rearrangement, diff, h),
                olds[|olds| - 1], page, modified, removed, rearrangement, diff, h)
  }

  /** An old action that is neither modified nor removed: it is carried to its located offset. */
  predicate Survives(act: int, modified: set<int>, removed: set<int>) {
    act !in modified && act !in removed
  }

  /** Does old offset `act` write new offset `pos` in the carry-over? */
  predicate Writes(act: int, pos: int, modified: set<int>, removed: set<int>,
                   rearrangement: map<int, int>, diff: seq<DiffOp>, h: Helpers) {
    || (Survives(act, modified, removed) && h.locate(act, diff, NoBound) == pos)
    || (act in rearrangement && rearrangement[act] == pos)
  }

  /**
   * Every old action that is neither modified nor removed is found at its located offset with
   * its `(id, indentation)` unchanged, unless a later old offset writes the same new offset.
   */
  lemma {:induction false} SurvivorKept(olds: seq<int>, i: nat, page: Actions, modified: set<int>, removed: set<int>,
                                        rearrangement: map<int, int>, diff: seq<DiffOp>, h: Helpers)
    requires forall j :: 0 <= j < |olds| ==> olds[j] in page
    requires i < |olds| && Survives(olds[i], modified, removed)
    requires forall j :: i < j < |olds| ==>
      !Writes(olds[j], h.locate(olds[i], diff, NoBound), modified, removed, rearrangement, diff, h)
    ensures var pos := h.locate(olds[i], diff, NoBound);
      var upd := CarriedOver(olds, page, modified, removed, rearrangement, diff, h);
      pos in upd && upd[pos] == page[olds[i]]
    decreases |olds|
  {
    var n := |olds|;
    var init := olds[..n - 1];
    if i < n - 1 {
      assert forall j :: 0 <= j < |init| ==> init[j] == olds[j];
      SurvivorKept(init, i, page, modified, removed, rearrangement, diff, h);
      assert !Writes(olds[n - 1], h.locate(olds[i], diff, NoBound), modified, removed, rearrangement, diff, h);
    }
  }

  /** Every offset of the carried-over state is written by some old offset, with that offset's value. */
  lemma {:induction false} CarriedFrom(olds: seq<int>, pos: int, page: Actions, modified: set<int>, removed: set<int>,
                                       rearrangement: map<int, int>, diff: seq<DiffOp>, h: Helpers)
    requires forall j :: 0 <= j < |olds| ==> olds[j] in page
    requires pos in CarriedOver(olds, page, modified, removed, rearrangement, diff, h)
    ensures exists j :: (0 <= j < |olds|
      && Writes(olds[j], pos, modified, removed, rearrangement, diff, h)
      && CarriedOver(olds, page, modified, removed, rearrangement, diff, h)[pos] == page[olds[j]])
    decreases |olds|
  {
    var n := |olds|;
    var init := olds[..n - 1];
    assert forall j :: 0 <= j < |init| ==> init[j] == olds[j];
    if !Writes(olds[n - 1], pos, modified, removed, rearrangement, diff, h) {
      CarriedFrom(init, pos, page, modified, removed, rearrangement, diff, h);
      var j :| 0 <= j < |init| && Writes(init[j], pos, modified, removed, rearrangement, diff, h)
        && CarriedOver(init, page, modified, removed, rearrangement, diff, h)[pos] == page[init[j]];
      assert olds[j] == init[j];
    } else {
      assert Writes(olds[n - 1], pos, modified, removed, rearrangement, diff, h);
    }
  }

  /**
   * The carry-over loop of `insert`: every old offset that is neither modified nor removed is
   * written at its located new offset, and a rearranged one at its new offset inside the addition.
   */
  method CarryOver(olds: seq<int>, page: Actions, modified: set<int>, removed: set<int>,
                   rearrangement: map<int, int>, diff: seq<DiffOp>, h: Helpers) returns (upd: Actions)
    requires forall i :: 0 <= i < |olds| ==> olds[i] in page
    ensures upd == CarriedOver(olds, page, modified, removed, rearrangement, diff, h)
  {
    upd := map[];
    for i := 0 to |olds|
      invariant upd == CarriedOver(olds[..i], page, modified, removed, rearrangement, diff, h)
    {
      var act := olds[i];
      if !(act in modified || act in removed) {
        var newPos := h.locate(act, diff, NoBound);
        upd := upd[newPos := page[act]];
      }
      if act in rearrangement {
        upd := upd[rearrangement[act] := page[act]];
      }
      assert olds[..i + 1][..i] == olds[..i];
    }
    assert olds[..|olds|] == olds;
  }

  // ---------------------------------------------------------------------
  // Modified actions

  /**
   * One turn of the modification loop for the action starting at old offset `start`: the
   * modification action, and the page state with its new offset set to `(id, indentation)`.
   * Err is the KeyError of an offset that is not on the old page.
   */
  function ModifyOne(start: int, olds: seq<int>, page: Actions, upd: Actions, rev: Revision, h: Helpers)
    : (r: Result<(Action, int, Actions), string>)
    ensures r.Ok? <==> start in page
    ensures r.Ok? ==>
      var (a, pos, u) := r.value;
      pos in u && u[pos].id == Id(a.id) && u == upd[pos := u[pos]]
    ensures r.Ok? ==>
      var newStart := h.locate(start, rev.diff, LeftBound);
      var newEnd := h.locate(h.actionEnd(olds, start), rev.diff, RightBound);
      var c := h.commentModification(page[start].id, PySlice(h.tokenize(rev.text), newStart, newEnd), newStart, newEnd, rev, upd, start);
      r.value.0 == c.action && r.value.1 == c.pos && r.value.2[c.pos].indentation == c.indentation
  {
    if start !in page then Err("KeyError")
    else
      var oldAction := page[start].id;
      var oldEnd := h.actionEnd(olds, start);
      var newStart := h.locate(start, rev.diff, LeftBound);
      var newEnd := h.locate(oldEnd, rev.diff, RightBound);
      var tokens := PySlice(h.tokenize(rev.text), newStart, newEnd);
      var c := h.commentModification(oldAction, tokens, newStart, newEnd, rev, upd, start);
      Ok((c.action, c.pos, upd[c.pos := Slot(Id(c.action.id), c.indentation)]))
  }

  /** The actions and page state after the modification loop over `starts`. */
  function Modified(starts: seq<int>, olds: seq<int>, page: Actions, upd: Actions, rev: Revision, h: Helpers)
    : (r: Result<(seq<Action>, Actions), string>)
    ensures r.Ok? <==> forall i :: 0 <= i < |starts| ==> starts[i] in page
    ensures r.Ok? ==> |r.value.0| == |starts| && upd.Keys <= r.value.1.Keys
  {
    if |starts| == 0 then Ok(([], upd))
    else
      var init := starts[..|starts| - 1];
      assert forall i :: 0 <= i < |init| ==> init[i] == starts[i];
      match Modified(init, olds, page, upd, rev, h)
      case Err(e) => Err(e)
      case Ok((actions, u)) =>
        match ModifyOne(starts[|starts| - 1], olds, page, u, rev, h)
        case Err(e) => Err(e)
        case Ok((a, _, u')) => Ok((actions + [a], u'))
  }

  /**
   * The modification loop of `insert`: one modification action per marked offset, in order,
   * each registered on the page state; Err when a marked offset is not on the old page.
   */
  method Modifications(starts: seq<int>, olds: seq<int>, page: Actions, upd: Actions, rev: Revision, h: Helpers)
    returns (r: Result<(seq<Action>, Actions), string>)
    ensures r == Modified(starts, olds, page, upd, rev, h)
  {
    var actions: seq<Action> := [];
    var u := upd;
    for i := 0 to |starts|
      invariant Modified(starts[..i], olds, page, upd, rev, h) == Ok((actions, u))
    {
      assert starts[..i + 1][..i] == starts[..i];
      var start := starts[i];
      if start !in page {
        ModifiedErr(starts, olds, page, upd, rev, h, i);
        return Err("KeyError");
      }
      var oldAction := page[start].id;
      var oldEnd := h.actionEnd(olds, start);
      var newStart := h.locate(start, rev.diff, LeftBound);
      var newEnd := h.locate(oldEnd, rev.diff, RightBound);
      var tokens := PySlice(h.tokenize(rev.text), newStart, newEnd);
      var c := h.commentModification(oldAction, tokens, newStart, newEnd, rev, u, start);
      actions := actions + [c.action];
      u := u[c.pos := Slot(Id(c.action.id), c.indentation)];
    }
    assert starts[..|starts|] == starts;
    return Ok((actions, u));
  }

  /**
   * The i-th modification action is the modification of the i-th marked offset, made against
   * the page state the first i modifications left.
   */
  lemma {:induction false} ModifiedNth(starts: seq<int>, olds: seq<int>, page: Actions, upd: Actions, rev: Revision, h: Helpers, i: nat)
    requires i < |starts|
    requires Modified(starts, olds, page, upd, rev, h).Ok?
    ensures Modified(starts[..i], olds, page, upd, rev, h).Ok?
    ensures ModifyOne(starts[i], olds, page, Modified(starts[..i], olds, page, upd, rev, h).value.1, rev, h).Ok?
    ensures Modified(starts, olds, page, upd, rev, h).value.0[i]
      == ModifyOne(starts[i], olds, page, Modified(starts[..i], olds, page, upd, rev, h).value.1, rev, h).value.0
    decreases |starts|
  {
    var n := |starts|;
    var init := starts[..n - 1];
    var prev := Modified(init, olds, page, upd, rev, h);
    assert prev.Ok?;
    if i < n - 1 {
      assert init[..i] == starts[..i] && init[i] == starts[i];
      ModifiedNth(init, olds, page, upd, rev, h, i);
    } else {
      assert init == starts[..i];
    }
  }

  /** The loop stops with the error of the first marked offset that is not on the page. */
  lemma ModifiedErr(starts: seq<int>, olds: seq<int>, page: Actions, upd: Actions, rev: Revision, h: Helpers, i: nat)
    requires i < |starts| && starts[i] !in page
    ensures Modified(starts, olds, page, upd, rev, h) == Err("KeyError")
  {
    if i < |starts| - 1 {
      var init := starts[..|starts| - 1];
      assert init[i] == starts[i];
      ModifiedErr(init, olds, page, upd, rev, h, i);
    } else {
      var init := starts[..|starts| - 1];
      var m := Modified(init, olds, page, upd, rev, h);
      if m.Ok? {
        assert ModifyOne(starts[i], olds, page, m.value.1, rev, h) == Err("KeyError");
      } else {
        ModifiedFirstErr(init, olds, page, upd, rev, h);
      }
    }
  }

  /** The only error of the modification loop is the KeyError. */
  lemma ModifiedFirstErr(starts: seq<int>, olds: seq<int>, page: Actions, upd: Actions, rev: Revision, h: Helpers)
    ensures Modified(starts, olds, page, upd, rev, h).Err? ==> Modified(starts, olds, page, upd, rev, h) == Err("KeyError")
  {
    if |starts| > 0 {
      ModifiedFirstErr(starts[..|starts| - 1], olds, page, upd, rev, h);
    }
  }

  // ---------------------------------------------------------------------
  // Padding the end offsets of new actions

  /**
   * The value an end offset missing from the page state is padded with: `tmp_lst[find_pos(start) - 1]`
   * on the sorted offsets. None is the IndexError of an empty page state.
   */
  function PadValue(upd: Actions, start: int): (r: Option<Slot>)
    ensures r.None? <==> upd.Keys == {}
  {
    var keys := SortedSet(upd.Keys);
    match PyIndex(keys, FindPos(start, keys) - 1)
    case None => None
    case Some(lastRev) => Some(upd[lastRev])
  }

  /**
   * The pad value is the value of the offset just before the one `find_pos` picks for the
   * action's start, and that of the largest offset when it picks the first.
   */
  lemma PadValueBefore(upd: Actions, start: int)
    requires upd.Keys != {}
    ensures var keys := SortedSet(upd.Keys);
      var i := FindPos(start, keys);
      PadValue(upd, start) == Some(if i > 0 then upd[keys[i - 1]] else upd[MaxOf(upd.Keys)])
  {
    var keys := SortedSet(upd.Keys);
    var i := FindPos(start, keys);
    IndexBefore(keys, i);
    SortedLastIsMax(upd.Keys);
  }

  /** Python's `keys[i - 1]` for an index inside a non-empty list wraps round to the last element at 0. */
  lemma IndexBefore(keys: seq<int>, i: nat)
    requires i < |keys|
    ensures PyIndex(keys, i - 1) == Some(if i > 0 then keys[i - 1] else keys[|keys| - 1])
  {
  }

  /** One turn of the padding loop: an end offset missing from the page state gets its pad value. */
  function PadOne(upd: Actions, start: int, end: int): (r: Result<Actions, string>)
    ensures end in upd ==> r == Ok(upd)
    ensures r.Err? <==> end !in upd && upd == map[]
    ensures r.Ok? ==> r.value.Keys == upd.Keys + {end}
    ensures r.Ok? ==> forall k :: k in upd ==> r.value[k] == upd[k]
    ensures r.Ok? && end !in upd ==> r.value[end] == PadValue(upd, start).value
  {
    if end in upd then Ok(upd)
    else
      match PadValue(upd, start)
      case None =>
        assert upd.Keys == {};
        assert upd == map[];
        Err("IndexError: list index out of range")
      case Some(v) => Ok(upd[end := v])
  }

  /** The page state after padding every end offset in turn; Err exactly when there are ends to pad on an empty page state. */
  function Padded(ends: seq<(int, int)>, upd: Actions): (r: Result<Actions, string>)
    ensures r.Err? <==> upd == map[] && |ends| > 0
    decreases |ends|
  {
    if |ends| == 0 then Ok(upd)
    else
      match PadOne(upd, ends[0].0, ends[0].1)
      case Err(e) => Err(e)
      case Ok(u) => Padded(ends[1..], u)
  }

  /**
   * After padding, every end offset is on the page state, every offset already there keeps its
   * value, and every other offset is one of the end offsets.
   */
  lemma {:induction false} PaddedCovers(ends: seq<(int, int)>, upd: Actions)
    requires Padded(ends, upd).Ok?
    ensures var u := Padded(ends, upd).value;
      && (forall k :: 0 <= k < |ends| ==> ends[k].1 in u)
      && (forall k :: k in upd ==> k in u && u[k] == upd[k])
      && (forall k :: k in u ==> k in upd || exists j :: 0 <= j < |ends| && ends[j].1 == k)
    decreases |ends|
  {
    if |ends| > 0 {
      var u := PadOne(upd, ends[0].0, ends[0].1).value;
      var rest := ends[1..];
      PaddedCovers(rest, u);
      var res := Padded(ends, upd).value;
      assert res == Padded(rest, u).value;
      forall k | 0 <= k < |ends| ensures ends[k].1 in res {
        if k > 0 {
          assert ends[k] == rest[k - 1];
        }
      }
      forall k | k in upd ensures k in res && res[k] == upd[k] {
        assert k in u && u[k] == upd[k];
      }
      forall k | k in res ensures k in upd || exists j :: 0 <= j < |ends| && ends[j].1 == k {
        if k !in upd {
          if k in u {
            assert ends[0].1 == k;
          } else {
            var j :| 0 <= j < |rest| && rest[j].1 == k;
            assert ends[j + 1].1 == k;
          }
        }
      }
    }
  }

  /**
   * The padding loop of `insert`: afterwards every end offset of a new action is on the page
   * state and no offset that was already there has changed.
   */
  method PadEndTokens(ends: seq<(int, int)>, upd: Actions) returns (r: Result<Actions, string>)
    ensures r == Padded(ends, upd)
  {
    var u := upd;
    var i := 0;
    while i < |ends|
      invariant 0 <= i <= |ends|
      invariant Padded(ends, upd) == Padded(ends[i..], u)
    {
      var (startTok, endTok) := ends[i];
      assert ends[i..][1..] == ends[i + 1..];
      if endTok !in u {
        var v := PadValue(u, startTok);
        if v.None? {
          return Err("IndexError: list index out of range");
        }
        u := u[endTok := v.value];
      }
      i := i + 1;
    }
    return Ok(u);
  }

  // ---------------------------------------------------------------------
  // Restored comments

  function Min(a: int, b: int): int { if a <= b then a else b }

  /** A non-empty Python slice from a non-negative start starts before it ends. */
  lemma NonEmptySlice<T>(s: seq<T>, i: int, j: int)
    requires 0 <= i <= j && PySlice(s, i, j) != []
    ensures i < j && i < |s|
  {
  }

  /** The offsets where the restorations of an end list start. */
  function Starts(ends: seq<(int, int)>): (r: set<int>)
    ensures forall k :: 0 <= k < |ends| ==> ends[k].0 in r
    ensures forall x :: x in r ==> exists k :: 0 <= k < |ends| && ends[k].0 == x
  {
    set k | 0 <= k < |ends| :: ends[k].0
  }

  lemma StartsAppend(ends: seq<(int, int)>, e: (int, int))
    ensures Starts(ends + [e]) == Starts(ends) + {e.0}
  {
    var r := ends + [e];
    forall x | x in Starts(r) ensures x in Starts(ends) + {e.0} {
      var k :| 0 <= k < |r| && r[k].0 == x;
      if k < |ends| {
        assert r[k] == ends[k];
      }
    }
    forall x | x in Starts(ends) + {e.0} ensures x in Starts(r) {
      if x in Starts(ends) {
        var k :| 0 <= k < |ends| && ends[k].0 == x;
        assert r[k] == ends[k];
      } else {
        assert r[|ends|] == e;
      }
    }
  }

  /** The restored ranges lie in order after the addition's start and before `lastTok`. */
  predicate EndsInOrder(insert: Span, guarded: bool, lastTok: int, ends: seq<(int, int)>) {
    && (forall k :: 0 <= k < |ends| ==> insert.b1 <= ends[k].0 <= ends[k].1 <= lastTok + insert.b1)
    && (forall k :: 0 <= k < |ends| - 1 ==> ends[k].1 <= ends[k + 1].0)
    && (guarded ==> forall k :: 0 <= k < |ends| ==> ends[k].0 < ends[k].1)
  }

  /** The remaining addition pieces are non-empty ranges of the addition. */
  predicate PiecesOf(insert: Span, pieces: seq<Span>) {
    forall p :: p in pieces ==> p.a1 == insert.a1 && p.a2 == insert.a2 && insert.b1 <= p.b1 < p.b2
  }

  /** The page state gains exactly the restored offsets, each holding a trie value, and keeps the rest. */
  predicate RestoredState(upd: Actions, matches: seq<TrieMatch>, u: Actions, ends: seq<(int, int)>) {
    && u.Keys == upd.Keys + Starts(ends)
    && (forall k :: k in upd && k !in Starts(ends) ==> u[k] == upd[k])
    && (forall k :: 0 <= k < |ends| ==> exists m :: m in matches && u[ends[k].0] == m.val)
  }

  /** What the restoration loop keeps true of its state after the matches seen so far. */
  predicate Restoring(
    insert: Span, upd: Actions, matches: seq<TrieMatch>, guarded: bool, lastTok: int,
    pieces: seq<Span>, actions: seq<Action>, u: Actions, ends: seq<(int, int)>)
  {
    && 0 <= lastTok && (guarded ==> lastTok <= |insert.tokens|)
    && |actions| == |ends|
    && EndsInOrder(insert, guarded, lastTok, ends)
    && PiecesOf(insert, pieces)
    && RestoredState(upd, matches, u, ends)
  }

  /** The tokens before a match, as an addition piece when there are any. */
  function Before(insert: Span, lastTok: int, k1Tok: int): seq<Span> {
    var before := PySlice(insert.tokens, lastTok, k1Tok);
    if before == [] then [] else [Span(insert.a1, insert.a2, lastTok + insert.b1, k1Tok + insert.b1, before)]
  }

  lemma EndsStep(insert: Span, guarded: bool, lastTok: int, ends: seq<(int, int)>, k1Tok: int, k2Tok: int)
    requires EndsInOrder(insert, guarded, lastTok, ends)
    requires 0 <= lastTok <= k1Tok <= k2Tok && (guarded ==> k1Tok < k2Tok)
    ensures EndsInOrder(insert, guarded, k2Tok, ends + [(k1Tok + insert.b1, k2Tok + insert.b1)])
  {
  }

  lemma PiecesStep(insert: Span, pieces: seq<Span>, lastTok: int, k1Tok: int)
    requires PiecesOf(insert, pieces) && 0 <= lastTok <= k1Tok
    ensures PiecesOf(insert, pieces + Before(insert, lastTok, k1Tok))
  {
    if Before(insert, lastTok, k1Tok) != [] {
      NonEmptySlice(insert.tokens, lastTok, k1Tok);
    }
  }

  lemma StateStep(upd: Actions, matches: seq<TrieMatch>, u: Actions, ends: seq<(int, int)>, m: TrieMatch, e: (int, int))
    requires RestoredState(upd, matches, u, ends) && m in matches
    ensures RestoredState(upd, matches, u[e.0 := m.val], ends + [e])
  {
    StartsAppend(ends, e);
    var ends' := ends + [e];
    var u' := u[e.0 := m.val];
    forall k | 0 <= k < |ends'| ensures exists m' :: m' in matches && u'[ends'[k].0] == m'.val {
      if k < |ends| && ends[k].0 != e.0 {
        var m' :| m' in matches && u[ends[k].0] == m'.val;
        assert ends'[k] == ends[k];
      }
    }
  }

  /** Recording one restoration, of tokens `[k1Tok, k2Tok)` with the match's value, keeps the loop's invariant. */
  lemma RestoreStep(
    insert: Span, upd: Actions, matches: seq<TrieMatch>, guarded: bool, lastTok: int,
    pieces: seq<Span>, actions: seq<Action>, u: Actions, ends: seq<(int, int)>,
    m: TrieMatch, k1Tok: int, k2Tok: int, a: Action)
    requires Restoring(insert, upd, matches, guarded, lastTok, pieces, actions, u, ends)
    requires m in matches && lastTok <= k1Tok <= k2Tok
    requires guarded ==> k1Tok < k2Tok <= |insert.tokens|
    ensures Restoring(insert, upd, matches, guarded, k2Tok,
      pieces + Before(insert, lastTok, k1Tok), actions + [a],
      u[k1Tok + insert.b1 := m.val], ends + [(k1Tok + insert.b1, k2Tok + insert.b1)])
  {
    EndsStep(insert, guarded, lastTok, ends, k1Tok, k2Tok);
    PiecesStep(insert, pieces, lastTok, k1Tok);
    StateStep(upd, matches, u, ends, m, (k1Tok + insert.b1, k2Tok + insert.b1));
  }

  /** The state of the restoration loop in one addition. */
  datatype Restored = Restored(lastTok: int, lastPos: int, pieces: seq<Span>, actions: seq<Action>, u: Actions, ends: seq<(int, int)>)

  /**
   * One turn of the restoration loop for trie match `m`: the match's tokens start after the
   * tokens of the text since the last match and run for the tokens of the matched text; with
   * `guarded` they are cut at the end of the addition and an empty match only moves `lastPos`.
   * Otherwise the tokens since the last restoration become a piece, the match a restoration of
   * its tokens with the trie value, set at its new offset.
   */
  function RestoreTurn(st: Restored, m: TrieMatch, insert: Span, rev: Revision, h: Helpers, guarded: bool): Restored {
    var text := TokensText(insert.tokens);
    var k1Tok := |h.tokenize(PySlice(text, st.lastPos, m.k1))| + st.lastTok;
    var k2Full := |h.tokenize(PySlice(text, m.k1, m.k2))| + k1Tok;
    var k2Tok := if guarded then Min(|insert.tokens|, k2Full) else k2Full;
    if guarded && k1Tok >= k2Tok then st.(lastPos := m.k2)
    else
      Restored(k2Tok, m.k2,
        st.pieces + Before(insert, st.lastTok, k1Tok),
        st.actions + [h.commentRestoration(m.val.id, PySlice(insert.tokens, k1Tok, k2Tok), k1Tok + insert.b1, rev, insert.a1)],
        st.u[k1Tok + insert.b1 := m.val],
        st.ends + [(k1Tok + insert.b1, k2Tok + insert.b1)])
  }

  /** The restoration loop over the matches in order. */
  function RestoreMatches(matches: seq<TrieMatch>, insert: Span, upd: Actions, rev: Revision, h: Helpers, guarded: bool): Restored
    decreases |matches|
  {
    if |matches| == 0 then Restored(0, 0, [], [], upd, [])
    else RestoreTurn(RestoreMatches(matches[..|matches| - 1], insert, upd, rev, h, guarded), matches[|matches| - 1], insert, rev, h, guarded)
  }

  /** The tokens after the last restoration, as an addition piece when its new range is not empty. */
  function RestTail(insert: Span, lastTok: int): seq<Span> {
    if insert.b2 - (lastTok + insert.b1) > 0
    then [Span(insert.a1, insert.a2, lastTok + insert.b1, insert.b2, PySlice(insert.tokens, lastTok, |insert.tokens|))]
    else []
  }

  /** The pieces, restorations, page state and restored ranges of the restoration search in one addition. */
  function RestoredIn(insert: Span, trie: Trie, upd: Actions, rev: Revision, h: Helpers, guarded: bool)
    : (seq<Span>, seq<Action>, Actions, seq<(int, int)>)
  {
    WithTail(RestoreMatches(h.findAllLong(trie, TokensText(insert.tokens)), insert, upd, rev, h, guarded), insert)
  }

  /** A loop state with the tokens after its last restoration added to its pieces. */
  function WithTail(st: Restored, insert: Span): (seq<Span>, seq<Action>, Actions, seq<(int, int)>) {
    (st.pieces + RestTail(insert, st.lastTok), st.actions, st.u, st.ends)
  }

  /** Where the last restored range ends, or the addition's start when there is none. */
  function EndOf(insert: Span, ends: seq<(int, int)>): int {
    if |ends| == 0 then insert.b1 else ends[|ends| - 1].1
  }

  /** The addition pieces between the restored ranges: before each range, the tokens since the previous one, when there are any. */
  function Gaps(insert: Span, ends: seq<(int, int)>): seq<Span>
    decreases |ends|
  {
    if |ends| == 0 then []
    else
      var init := ends[..|ends| - 1];
      Gaps(insert, init) + Before(insert, EndOf(insert, init) - insert.b1, ends[|ends| - 1].0 - insert.b1)
  }

  /** Restoration `a` restores exactly the tokens of range `e` of the addition, with the id of one of the matches. */
  predicate RestorationOf(a: Action, e: (int, int), matches: seq<TrieMatch>, insert: Span, rev: Revision, h: Helpers) {
    exists m :: m in matches &&
      a == h.commentRestoration(m.val.id, PySlice(insert.tokens, e.0 - insert.b1, e.1 - insert.b1), e.0, rev, insert.a1)
  }

  /** `pieces` are the gaps between the restored ranges `ends` followed by the tokens after the last one. */
  predicate PiecesAreGaps(insert: Span, pieces: seq<Span>, ends: seq<(int, int)>) {
    pieces == Gaps(insert, ends) + RestTail(insert, EndOf(insert, ends) - insert.b1)
  }

  /** The loop's pieces are the gaps between its restored ranges, and `lastTok` is where the last range ends. */
  predicate GapsState(st: Restored, insert: Span) {
    && st.pieces == Gaps(insert, st.ends)
    && st.lastTok == EndOf(insert, st.ends) - insert.b1
    && |st.actions| == |st.ends|
  }

  lemma TurnKeepsGaps(st: Restored, m: TrieMatch, insert: Span, rev: Revision, h: Helpers, guarded: bool)
    requires GapsState(st, insert)
    ensures GapsState(RestoreTurn(st, m, insert, rev, h, guarded), insert)
  {
    var next := RestoreTurn(st, m, insert, rev, h, guarded);
    var text := TokensText(insert.tokens);
    var k1Tok := |h.tokenize(PySlice(text, st.lastPos, m.k1))| + st.lastTok;
    var k2Full := |h.tokenize(PySlice(text, m.k1, m.k2))| + k1Tok;
    var k2Tok := if guarded then Min(|insert.tokens|, k2Full) else k2Full;
    if !(guarded && k1Tok >= k2Tok) {
      GapsStep(st, next, insert, k1Tok, k2Tok);
    }
  }

  /** A turn that restores tokens `k1`..`k2` adds the gap before them and ends where they end. */
  lemma GapsStep(st: Restored, next: Restored, insert: Span, k1: int, k2: int)
    requires GapsState(st, insert)
    requires next.pieces == st.pieces + Before(insert, st.lastTok, k1)
    requires next.ends == st.ends + [(k1 + insert.b1, k2 + insert.b1)]
    requires next.lastTok == k2 && |next.actions| == |st.actions| + 1
    ensures GapsState(next, insert)
  {
    GapsSnoc(insert, st.ends, st.lastTok, k1, k2);
  }

  /** One more restored range adds the gap before it and moves the end to its end. */
  lemma GapsSnoc(insert: Span, ends: seq<(int, int)>, lastTok: int, k1: int, k2: int)
    requires lastTok == EndOf(insert, ends) - insert.b1
    ensures Gaps(insert, ends + [(k1 + insert.b1, k2 + insert.b1)]) == Gaps(insert, ends) + Before(insert, lastTok, k1)
    ensures EndOf(insert, ends + [(k1 + insert.b1, k2 + insert.b1)]) - insert.b1 == k2
  {
    assert (ends + [(k1 + insert.b1, k2 + insert.b1)])[..|ends|] == ends;
  }


  /** Restorations a turn adds to `st` restore their ranges with `m`'s id. */
  lemma TurnRestores(st: Restored, m: TrieMatch, matches: seq<TrieMatch>, insert: Span, rev: Revision, h: Helpers, guarded: bool)
    requires |st.actions| == |st.ends| && m in matches
    requires forall k :: 0 <= k < |st.ends| ==> RestorationOf(st.actions[k], st.ends[k], matches, insert, rev, h)
    ensures var next := RestoreTurn(st, m, insert, rev, h, guarded);
      forall k :: 0 <= k < |next.ends| ==> RestorationOf(next.actions[k], next.ends[k], matches, insert, rev, h)
  {
    var next := RestoreTurn(st, m, insert, rev, h, guarded);
    forall k | 0 <= k < |next.ends| ensures RestorationOf(next.actions[k], next.ends[k], matches, insert, rev, h) {
      if k < |st.ends| {
        assert next.ends[k] == st.ends[k] && next.actions[k] == st.actions[k];
      }
    }
  }

  /** Restorations over some of the matches are restorations over all of them. */
  lemma RestorationsWiden(st: Restored, init: seq<TrieMatch>, matches: seq<TrieMatch>, insert: Span, rev: Revision, h: Helpers)
    requires forall m :: m in init ==> m in matches
    requires forall k :: 0 <= k < |st.ends| && k < |st.actions| ==> RestorationOf(st.actions[k], st.ends[k], init, insert, rev, h)
    ensures forall k :: 0 <= k < |st.ends| && k < |st.actions| ==> RestorationOf(st.actions[k], st.ends[k], matches, insert, rev, h)
  {
    forall k | 0 <= k < |st.ends| && k < |st.actions| ensures RestorationOf(st.actions[k], st.ends[k], matches, insert, rev, h) {
      var e := st.ends[k];
      var m' :| m' in init && st.actions[k] ==
        h.commentRestoration(m'.val.id, PySlice(insert.tokens, e.0 - insert.b1, e.1 - insert.b1), e.0, rev, insert.a1);
      assert m' in matches;
    }
  }

  /**
   * The loop's pieces are the gaps between its restored ranges, its last token is where the
   * last range ends, and each restoration restores its range with a match's id.
   */
  lemma {:induction false} RestoreMatchesGaps(matches: seq<TrieMatch>, insert: Span, upd: Actions, rev: Revision, h: Helpers, guarded: bool)
    ensures var st := RestoreMatches(matches, insert, upd, rev, h, guarded);
      && GapsState(st, insert)
      && (forall k :: 0 <= k < |st.ends| ==> RestorationOf(st.actions[k], st.ends[k], matches, insert, rev, h))
    decreases |matches|
  {
    if |matches| > 0 {
      var init := matches[..|matches| - 1];
      var m := matches[|matches| - 1];
      RestoreMatchesGaps(init, insert, upd, rev, h, guarded);
      var prev := RestoreMatches(init, insert, upd, rev, h, guarded);
      TurnKeepsGaps(prev, m, insert, rev, h, guarded);
      RestorationsWiden(prev, init, matches, insert, rev, h);
      TurnRestores(prev, m, matches, insert, rev, h, guarded);
    }
  }

  lemma RestoreMatchesNext(matches: seq<TrieMatch>, i: nat, insert: Span, upd: Actions, rev: Revision, h: Helpers, guarded: bool)
    requires i < |matches|
    ensures RestoreMatches(matches[..i + 1], insert, upd, rev, h, guarded)
      == RestoreTurn(RestoreMatches(matches[..i], insert, upd, rev, h, guarded), matches[i], insert, rev, h, guarded)
  {
    assert matches[..i + 1][..i] == matches[..i];
  }

  /** A turn that restores match `m` over tokens `k1Tok` to `k2Tok`. */
  lemma RestoreTurnTaken(st: Restored, m: TrieMatch, insert: Span, rev: Revision, h: Helpers, guarded: bool, k1Tok: int, k2Full: int, k2Tok: int)
    requires k1Tok == |h.tokenize(PySlice(TokensText(insert.tokens), st.lastPos, m.k1))| + st.lastTok
    requires k2Full == |h.tokenize(PySlice(TokensText(insert.tokens), m.k1, m.k2))| + k1Tok
    requires k2Tok == if guarded then Min(|insert.tokens|, k2Full) else k2Full
    requires !(guarded && k1Tok >= k2Tok)
    ensures RestoreTurn(st, m, insert, rev, h, guarded) == Restored(k2Tok, m.k2,
      st.pieces + Before(insert, st.lastTok, k1Tok),
      st.actions + [h.commentRestoration(m.val.id, PySlice(insert.tokens, k1Tok, k2Tok), k1Tok + insert.b1, rev, insert.a1)],
      st.u[k1Tok + insert.b1 := m.val],
      st.ends + [(k1Tok + insert.b1, k2Tok + insert.b1)])
  {
  }

  /** The restoration loop keeps `Restoring` over every list of matches drawn from `all`. */
  lemma {:induction false} RestoreMatchesRestoring(matches: seq<TrieMatch>, all: seq<TrieMatch>, insert: Span, upd: Actions, rev: Revision, h: Helpers, guarded: bool)
    requires forall m :: m in matches ==> m in all
    ensures var st := RestoreMatches(matches, insert, upd, rev, h, guarded);
      Restoring(insert, upd, all, guarded, st.lastTok, st.pieces, st.actions, st.u, st.ends)
    decreases |matches|
  {
    if |matches| > 0 {
      var init := matches[..|matches| - 1];
      var m := matches[|matches| - 1];
      assert forall m' :: m' in init ==> m' in matches;
      RestoreMatchesRestoring(init, all, insert, upd, rev, h, guarded);
      var st := RestoreMatches(init, insert, upd, rev, h, guarded);
      var text := TokensText(insert.tokens);
      var k1Tok := |h.tokenize(PySlice(text, st.lastPos, m.k1))| + st.lastTok;
      var k2Full := |h.tokenize(PySlice(text, m.k1, m.k2))| + k1Tok;
      var k2Tok := if guarded then Min(|insert.tokens|, k2Full) else k2Full;
      if !(guarded && k1Tok >= k2Tok) {
        RestoreTurnTaken(st, m, insert, rev, h, guarded, k1Tok, k2Full, k2Tok);
        var a := h.commentRestoration(m.val.id, PySlice(insert.tokens, k1Tok, k2Tok), k1Tok + insert.b1, rev, insert.a1);
        RestoreStep(insert, upd, all, guarded, st.lastTok, st.pieces, st.actions, st.u, st.ends, m, k1Tok, k2Tok, a);
      }
    }
  }

  /**
   * What the restoration search in one addition promises: one restoration per restored range,
   * the ranges in order inside the addition (non-empty and within its tokens with the guard),
   * the pieces non-empty ranges of the addition, and the page state gaining exactly the
   * restored offsets, each holding a trie value.
   */
  lemma RestoredInFacts(insert: Span, trie: Trie, upd: Actions, rev: Revision, h: Helpers, guarded: bool)
    ensures var r := RestoredIn(insert, trie, upd, rev, h, guarded);
      && |r.1| == |r.3|
      && (forall k :: 0 <= k < |r.3| ==> insert.b1 <= r.3[k].0 <= r.3[k].1)
      && (forall k :: 0 <= k < |r.3| - 1 ==> r.3[k].1 <= r.3[k + 1].0)
      && (guarded ==> forall k :: 0 <= k < |r.3| ==> r.3[k].0 < r.3[k].1 <= insert.b1 + |insert.tokens|)
      && PiecesOf(insert, r.0)
      && RestoredState(upd, h.findAllLong(trie, TokensText(insert.tokens)), r.2, r.3)
  {
    var matches := h.findAllLong(trie, TokensText(insert.tokens));
    RestoreMatchesRestoring(matches, matches, insert, upd, rev, h, guarded);
    var st := RestoreMatches(matches, insert, upd, rev, h, guarded);
    assert PiecesOf(insert, RestTail(insert, st.lastTok));
  }

  /** Without the guard every match of the trie is restored. */
  lemma {:induction false} UnguardedRestoresEveryMatch(matches: seq<TrieMatch>, insert: Span, upd: Actions, rev: Revision, h: Helpers)
    ensures |RestoreMatches(matches, insert, upd, rev, h, false).ends| == |matches|
    decreases |matches|
  {
    if |matches| > 0 {
      UnguardedRestoresEveryMatch(matches[..|matches| - 1], insert, upd, rev, h);
    }
  }

  /** The restorations of `RestoreMatchesGaps` and the count of `UnguardedRestoresEveryMatch`, stated on the state with its tail. */
  lemma RestorationsWithTail(st: Restored, matches: seq<TrieMatch>, insert: Span, rev: Revision, h: Helpers, guarded: bool)
    requires |st.actions| == |st.ends|
    requires forall k :: 0 <= k < |st.ends| ==> RestorationOf(st.actions[k], st.ends[k], matches, insert, rev, h)
    requires !guarded ==> |st.ends| == |matches|
    ensures var r := WithTail(st, insert);
      && |r.1| == |r.3|
      && (forall k :: 0 <= k < |r.3| ==> RestorationOf(r.1[k], r.3[k], matches, insert, rev, h))
      && (!guarded ==> |r.3| == |matches|)
  {
  }

  /** The pieces of the restoration search in one addition are the gaps between its restored ranges and the tokens after the last one. */
  lemma RestoredInPieces(insert: Span, trie: Trie, upd: Actions, rev: Revision, h: Helpers, guarded: bool)
    ensures var r := RestoredIn(insert, trie, upd, rev, h, guarded);
      PiecesAreGaps(insert, r.0, r.3)
  {
    RestoreMatchesPieces(h.findAllLong(trie, TokensText(insert.tokens)), insert, upd, rev, h, guarded);
  }

  lemma RestoreMatchesPieces(matches: seq<TrieMatch>, insert: Span, upd: Actions, rev: Revision, h: Helpers, guarded: bool)
    ensures var w := WithTail(RestoreMatches(matches, insert, upd, rev, h, guarded), insert);
      PiecesAreGaps(insert, w.0, w.3)
  {
    RestoreMatchesGaps(matches, insert, upd, rev, h, guarded);
    PiecesWithTail(RestoreMatches(matches, insert, upd, rev, h, guarded), insert);
  }

  lemma PiecesWithTail(st: Restored, insert: Span)
    requires GapsState(st, insert)
    ensures var r := WithTail(st, insert);
      PiecesAreGaps(insert, r.0, r.3)
  {
    AppendBoth(st.pieces, Gaps(insert, st.ends), RestTail(insert, st.lastTok), RestTail(insert, EndOf(insert, st.ends) - insert.b1));
  }

  lemma AppendBoth(a: seq<Span>, a': seq<Span>, b: seq<Span>, b': seq<Span>)
    requires a == a' && b == b'
    ensures a + b == a' + b'
  {
  }

  /**
   * The restoration search in one addition, in terms of its restored ranges: the pieces are the
   * gaps between the ranges followed by the tokens after the last one, each restoration restores
   * exactly the tokens of its range with the id of a trie match, and without the guard there is
   * one restoration per match.
   */
  lemma RestoredInGaps(insert: Span, trie: Trie, upd: Actions, rev: Revision, h: Helpers, guarded: bool)
    ensures var r := RestoredIn(insert, trie, upd, rev, h, guarded);
      var matches := h.findAllLong(trie, TokensText(insert.tokens));
      && PiecesAreGaps(insert, r.0, r.3)
      && |r.1| == |r.3|
      && (forall k :: 0 <= k < |r.3| ==> RestorationOf(r.1[k], r.3[k], matches, insert, rev, h))
      && (!guarded ==> |r.3| == |matches|)
  {
    var matches := h.findAllLong(trie, TokensText(insert.tokens));
    var st := RestoreMatches(matches, insert, upd, rev, h, guarded);
    assert RestoredIn(insert, trie, upd, rev, h, guarded) == WithTail(st, insert);
    assert |st.actions| == |st.ends| && forall k :: 0 <= k < |st.ends| ==> RestorationOf(st.actions[k], st.ends[k], matches, insert, rev, h) by {
      RestoreMatchesGaps(matches, insert, upd, rev, h, guarded);
    }
    assert !guarded ==> |st.ends| == |matches| by {
      if !guarded {
        UnguardedRestoresEveryMatch(matches, insert, upd, rev, h);
      }
    }
    RestorationsWithTail(st, matches, insert, rev, h, guarded);
    RestoredInPieces(insert, trie, upd, rev, h, guarded);
  }

  /**
   * The restoration search in one addition. Each trie match of the addition's text becomes a
   * restoration of the matched tokens; the tokens between matches stay additions. With
   * `guarded` (the current constructor) a match is cut at the end of the addition and skipped
   * when that leaves it empty; the older constructor does neither.
   */
  method RestoreInAddition(insert: Span, trie: Trie, upd: Actions, rev: Revision, h: Helpers, guarded: bool)
    returns (pieces: seq<Span>, actions: seq<Action>, u: Actions, ends: seq<(int, int)>)
    ensures |actions| == |ends|
    ensures forall k :: 0 <= k < |ends| ==> insert.b1 <= ends[k].0 <= ends[k].1
    ensures forall k :: 0 <= k < |ends| - 1 ==> ends[k].1 <= ends[k + 1].0
    ensures guarded ==> forall k :: 0 <= k < |ends| ==> ends[k].0 < ends[k].1 <= insert.b1 + |insert.tokens|
    ensures forall p :: p in pieces ==> p.a1 == insert.a1 && p.a2 == insert.a2 && insert.b1 <= p.b1 < p.b2
    ensures RestoredState(upd, h.findAllLong(trie, TokensText(insert.tokens)), u, ends)
    ensures (pieces, actions, u, ends) == RestoredIn(insert, trie, upd, rev, h, guarded)
  {
    var matches := h.findAllLong(trie, TokensText(insert.tokens));
    var lastTok, lastPos;
    lastTok, lastPos, pieces, actions, u, ends := RestoreLoop(insert, matches, upd, rev, h, guarded);
    // The tokens after the last match stay an addition, when there are any.
    pieces := pieces + RestTail(insert, lastTok);
    RestoredInFacts(insert, trie, upd, rev, h, guarded);
  }

  /** The loop of the restoration search over the trie matches of one addition, before its last piece. */
  method RestoreLoop(insert: Span, matches: seq<TrieMatch>, upd: Actions, rev: Revision, h: Helpers, guarded: bool)
    returns (lastTok: int, lastPos: int, pieces: seq<Span>, actions: seq<Action>, u: Actions, ends: seq<(int, int)>)
    ensures Restored(lastTok, lastPos, pieces, actions, u, ends) == RestoreMatches(matches, insert, upd, rev, h, guarded)
  {
    var tokens := insert.tokens;
    var text := TokensText(tokens);
    lastTok, lastPos := 0, 0;
    pieces, actions, u, ends := [], [], upd, [];
    for i := 0 to |matches|
      invariant RestoreMatches(matches[..i], insert, upd, rev, h, guarded) == Restored(lastTok, lastPos, pieces, actions, u, ends)
    {
      var m := matches[i];
      RestoreMatchesNext(matches, i, insert, upd, rev, h, guarded);
      ghost var st := Restored(lastTok, lastPos, pieces, actions, u, ends);
      var k1Tok := |h.tokenize(PySlice(text, lastPos, m.k1))| + lastTok;
      lastPos := m.k2;
      var k2Tok := |h.tokenize(PySlice(text, m.k1, m.k2))| + k1Tok;
      ghost var k2Full := k2Tok;
      if guarded {
        k2Tok := Min(|tokens|, k2Tok);
        if k1Tok >= k2Tok {
          assert RestoreTurn(st, m, insert, rev, h, guarded) == st.(lastPos := m.k2);
          continue;
        }
      }
      RestoreTurnTaken(st, m, insert, rev, h, guarded, k1Tok, k2Full, k2Tok);
      var restoration := h.commentRestoration(m.val.id, PySlice(tokens, k1Tok, k2Tok), k1Tok + insert.b1, rev, insert.a1);
      pieces := pieces + Before(insert, lastTok, k1Tok);
      actions := actions + [restoration];
      u := u[k1Tok + insert.b1 := m.val];
      ends := ends + [(k1Tok + insert.b1, k2Tok + insert.b1)];
      lastTok := k2Tok;
    }
    assert matches[..|matches|] == matches;
  }

  /** The restoration search over every addition in order, each starting from the page state the previous one left. */
  function RestorationsOf(additions: seq<Span>, trie: Trie, upd: Actions, rev: Revision, h: Helpers, guarded: bool)
    : (seq<Span>, seq<Action>, Actions, seq<(int, int)>)
    decreases |additions|
  {
    if |additions| == 0 then ([], [], upd, [])
    else
      var p := RestorationsOf(additions[..|additions| - 1], trie, upd, rev, h, guarded);
      var r := RestoredIn(additions[|additions| - 1], trie, p.2, rev, h, guarded);
      (p.0 + r.0, p.1 + r.1, r.2, p.3 + r.3)
  }

  lemma StartsConcat(a: seq<(int, int)>, b: seq<(int, int)>)
    ensures Starts(a + b) == Starts(a) + Starts(b)
  {
    var r := a + b;
    forall x | x in Starts(r) ensures x in Starts(a) + Starts(b) {
      var k :| 0 <= k < |r| && r[k].0 == x;
      if k < |a| {
        assert r[k] == a[k];
      } else {
        assert r[k] == b[k - |a|];
      }
    }
    forall x | x in Starts(a) + Starts(b) ensures x in Starts(r) {
      if x in Starts(a) {
        var k :| 0 <= k < |a| && a[k].0 == x;
        assert r[k] == a[k];
      } else {
        var k :| 0 <= k < |b| && b[k].0 == x;
        assert r[|a| + k] == b[k];
      }
    }
  }

  /** What the restoration search has established over a run of additions. */
  predicate SearchState(additions: seq<Span>, upd: Actions, guarded: bool, r: (seq<Span>, seq<Action>, Actions, seq<(int, int)>)) {
    && |r.1| == |r.3|
    && r.2.Keys == upd.Keys + Starts(r.3)
    && (forall k :: k in upd && k !in Starts(r.3) ==> r.2[k] == upd[k])
    && (forall p :: p in r.0 ==> exists a :: a in additions && p.a1 == a.a1 && p.a2 == a.a2 && a.b1 <= p.b1 < p.b2)
    && (guarded ==> forall k :: 0 <= k < |r.3| ==> r.3[k].0 < r.3[k].1)
  }

  /** Searching one more addition after a run of them extends what the search has established. */
  lemma SearchStateStep(
    init: seq<Span>, insert: Span, upd: Actions, guarded: bool, matches: seq<TrieMatch>,
    p: (seq<Span>, seq<Action>, Actions, seq<(int, int)>), r: (seq<Span>, seq<Action>, Actions, seq<(int, int)>))
    requires SearchState(init, upd, guarded, p)
    requires |r.1| == |r.3| && PiecesOf(insert, r.0) && RestoredState(p.2, matches, r.2, r.3)
    requires guarded ==> forall k :: 0 <= k < |r.3| ==> r.3[k].0 < r.3[k].1
    ensures SearchState(init + [insert], upd, guarded, (p.0 + r.0, p.1 + r.1, r.2, p.3 + r.3))
  {
    var additions := init + [insert];
    var all: (seq<Span>, seq<Action>, Actions, seq<(int, int)>) := (p.0 + r.0, p.1 + r.1, r.2, p.3 + r.3);
    StartsConcat(p.3, r.3);
    forall q | q in all.0 ensures exists a :: a in additions && q.a1 == a.a1 && q.a2 == a.a2 && a.b1 <= q.b1 < q.b2 {
      if q in p.0 {
        var a :| a in init && q.a1 == a.a1 && q.a2 == a.a2 && a.b1 <= q.b1 < q.b2;
        assert a in additions;
      } else {
        assert q in r.0 && insert in additions;
      }
    }
    if guarded {
      forall k | 0 <= k < |all.3| ensures all.3[k].0 < all.3[k].1 {
        if k >= |p.3| {
          assert all.3[k] == r.3[k - |p.3|];
        }
      }
    }
  }

  lemma ButLastAndLast(additions: seq<Span>)
    requires |additions| > 0
    ensures additions == additions[..|additions| - 1] + [additions[|additions| - 1]]
  {
  }

  /**
   * The restoration search over every addition: one restoration per restored range, every
   * piece a non-empty range of one of the additions, non-empty ranges with the guard, and the
   * page state gaining exactly the restored offsets and keeping every other entry.
   */
  lemma {:induction false} RestorationsOfState(additions: seq<Span>, trie: Trie, upd: Actions, rev: Revision, h: Helpers, guarded: bool)
    ensures var r := RestorationsOf(additions, trie, upd, rev, h, guarded);
      && |r.1| == |r.3|
      && r.2.Keys == upd.Keys + Starts(r.3)
      && (forall k :: k in upd && k !in Starts(r.3) ==> r.2[k] == upd[k])
      && (forall p :: p in r.0 ==> exists a :: a in additions && p.a1 == a.a1 && p.a2 == a.a2 && a.b1 <= p.b1 < p.b2)
      && (guarded ==> forall k :: 0 <= k < |r.3| ==> r.3[k].0 < r.3[k].1)
    decreases |additions|
  {
    if |additions| > 0 {
      var init := additions[..|additions| - 1];
      var insert := additions[|additions| - 1];
      RestorationsOfState(init, trie, upd, rev, h, guarded);
      var p := RestorationsOf(init, trie, upd, rev, h, guarded);
      var r := RestoredIn(insert, trie, p.2, rev, h, guarded);
      RestoredInFacts(insert, trie, p.2, rev, h, guarded);
      SearchStateStep(init, insert, upd, guarded, h.findAllLong(trie, TokensText(insert.tokens)), p, r);
      ButLastAndLast(additions);
      assert RestorationsOf(additions, trie, upd, rev, h, guarded) == (p.0 + r.0, p.1 + r.1, r.2, p.3 + r.3);
    }
  }

  /** The restoration search over every addition, in order. */
  method Restorations(additions: seq<Span>, trie: Trie, upd: Actions, rev: Revision, h: Helpers, guarded: bool)
    returns (pieces: seq<Span>, actions: seq<Action>, u: Actions, ends: seq<(int, int)>)
    ensures |actions| == |ends|
    ensures upd.Keys <= u.Keys
    ensures forall p :: p in pieces ==> p.b1 < p.b2
    ensures guarded ==> forall k :: 0 <= k < |ends| ==> ends[k].0 < ends[k].1
    ensures (pieces, actions, u, ends) == RestorationsOf(additions, trie, upd, rev, h, guarded)
  {
    pieces, actions, u, ends := [], [], upd, [];
    for i := 0 to |additions|
      invariant (pieces, actions, u, ends) == RestorationsOf(additions[..i], trie, upd, rev, h, guarded)
    {
      assert additions[..i + 1][..i] == additions[..i];
      var ps, acts, u', es := RestoreInAddition(additions[i], trie, u, rev, h, guarded);
      pieces, actions, u, ends := pieces + ps, actions + acts, u', ends + es;
    }
    assert additions[..|additions|] == additions;
    RestorationsOfState(additions, trie, upd, rev, h, guarded);
    forall p | p in pieces ensures p.b1 < p.b2 {
      var a :| a in additions && p.a1 == a.a1 && p.a2 == a.a2 && a.b1 <= p.b1 < p.b2;
    }
  }

  // ---------------------------------------------------------------------
  // Added comments

  /** One turn of the addition loop: the addition action, and its offset set on the page state. */
  function AddOne(insert: Span, upd: Actions, rev: Revision, h: Helpers): (r: (Action, Actions))
    ensures var c := h.commentAdding(insert, rev, upd);
      && r.0 == c.action
      && r.1.Keys == upd.Keys + {c.pos}
      && r.1[c.pos] == Slot(Id(c.id), c.indentation)
      && forall k :: k in upd && k != c.pos ==> r.1[k] == upd[k]
  {
    var c := h.commentAdding(insert, rev, upd);
    (c.action, upd[c.pos := Slot(Id(c.id), c.indentation)])
  }

  /** The actions and page state after the addition loop. */
  function Added(additions: seq<Span>, upd: Actions, rev: Revision, h: Helpers): (r: (seq<Action>, Actions))
    ensures |r.0| == |additions|
    ensures upd.Keys <= r.1.Keys
  {
    if |additions| == 0 then ([], upd)
    else
      var before := Added(additions[..|additions| - 1], upd, rev, h);
      var step := AddOne(additions[|additions| - 1], before.1, rev, h);
      (before.0 + [step.0], step.1)
  }

  /** The page state grows by at most one offset per addition. */
  lemma {:induction false} AddedGrowth(additions: seq<Span>, upd: Actions, rev: Revision, h: Helpers)
    ensures |Added(additions, upd, rev, h).1.Keys - upd.Keys| <= |additions|
  {
    if |additions| > 0 {
      var init := additions[..|additions| - 1];
      AddedGrowth(init, upd, rev, h);
      var u := Added(init, upd, rev, h).1;
      var u' := Added(additions, upd, rev, h).1;
      var c := h.commentAdding(additions[|additions| - 1], rev, u);
      assert u'.Keys - upd.Keys <= (u.Keys - upd.Keys) + {c.pos};
      SubsetCard(u'.Keys - upd.Keys, (u.Keys - upd.Keys) + {c.pos});
    }
  }

  lemma SubsetCard(a: set<int>, b: set<int>)
    requires a <= b
    ensures |a| <= |b|
  {
    assert b == a + (b - a);
  }

  /** The new-text range of each addition, in order. */
  function AdditionEnds(additions: seq<Span>): (r: seq<(int, int)>)
    ensures |r| == |additions|
    ensures forall i :: 0 <= i < |additions| ==> r[i] == (additions[i].b1, additions[i].b2)
  {
    seq(|additions|, i requires 0 <= i < |additions| => (additions[i].b1, additions[i].b2))
  }

  lemma AdditionEndsAppend(additions: seq<Span>, a: Span)
    ensures AdditionEnds(additions + [a]) == AdditionEnds(additions) + [(a.b1, a.b2)]
  {
  }

  /**
   * The addition loop of `insert`: one addition action per remaining addition, in order, each
   * registered on the page state, and each addition's new range recorded as an end to pad.
   */
  method AddComments(additions: seq<Span>, upd: Actions, rev: Revision, h: Helpers)
    returns (actions: seq<Action>, u: Actions, ends: seq<(int, int)>)
    ensures (actions, u) == Added(additions, upd, rev, h)
    ensures |ends| == |additions|
    ensures forall i :: 0 <= i < |additions| ==> ends[i] == (additions[i].b1, additions[i].b2)
  {
    actions, u, ends := [], upd, [];
    for i := 0 to |additions|
      invariant actions == Added(additions[..i], upd, rev, h).0
      invariant u == Added(additions[..i], upd, rev, h).1
      invariant ends == AdditionEnds(additions[..i])
    {
      assert additions[..i + 1] == additions[..i] + [additions[i]];
      AdditionEndsAppend(additions[..i], additions[i]);
      var step := AddOne(additions[i], u, rev, h);
      actions := actions + [step.0];
      u := step.1;
      ends := ends + [(additions[i].b1, additions[i].b2)];
    }
    assert additions[..|additions|] == additions;
  }

  // ---------------------------------------------------------------------
  // Removed comments

  /** The removal loop of `insert`: one removal action per confirmed removal, in order. */
  method RegisterRemovals(removals: seq<Removal>, rev: Revision, h: Helpers) returns (actions: seq<Action>)
    ensures |actions| == |removals|
    ensures forall i :: 0 <= i < |removals| ==> actions[i] == h.commentRemoval(removals[i], rev)
  {
    actions := [];
    for i := 0 to |removals|
      invariant |actions| == i
      invariant forall j :: 0 <= j < i ==> actions[j] == h.commentRemoval(removals[j], rev)
    {
      actions := actions + [h.commentRemoval(removals[i], rev)];
    }
  }
}
