/**
 * What both conversation constructors do to the actions `insert` returns: stamp them with the
 * page, and record each long enough comment removal as a deleted comment that a later revision
 * may restore (an entry of the deleted-comment trie).
 */
module PostProcessing {
  import opened Wrappers
  import opened PageState

  /** The action with the page's id and title filled in. */
  function Stamp(a: Action, pageId: string, pageTitle: string): (r: Action)
    ensures r.pageId == Some(pageId) && r.pageTitle == Some(pageTitle)
    ensures r == a.(pageId := r.pageId, pageTitle := r.pageTitle)
  {
    a.(pageId := Some(pageId), pageTitle := Some(pageTitle))
  }

  /** A comment removal with more than `threshold` tokens: one that is recorded for restoration. */
  predicate RemovalAbove(a: Action, threshold: int) {
    a.kind == CommentRemoval && |a.content| > threshold
  }

  /** The trie entry of a removal: its text, keyed to the removed action and its indentation. */
  function TrieEntry(a: Action): (string, Slot) {
    (TokensText(a.content), Slot(a.parentId, a.indentation))
  }

  /** The entries the post-processing loop records for `actions`, in order. */
  function TrieEntries(actions: seq<Action>, threshold: int): (r: seq<(string, Slot)>)
    ensures |r| <= |actions|
  {
    if |actions| == 0 then []
    else
      var last := actions[|actions| - 1];
      TrieEntries(actions[..|actions| - 1], threshold) + (if RemovalAbove(last, threshold) then [TrieEntry(last)] else [])
  }

  /** Recording one more action appends its entry exactly when it is a long removal. */
  lemma TrieEntriesAppend(actions: seq<Action>, a: Action, threshold: int)
    ensures TrieEntries(actions + [a], threshold) ==
      TrieEntries(actions, threshold) + (if RemovalAbove(a, threshold) then [TrieEntry(a)] else [])
  {
    assert (actions + [a])[..|actions|] == actions;
  }

  /** A trie that held `base` plus the entries of `actions` and then recorded `a` holds `base` plus the entries of `actions + [a]`. */
  lemma TrieEntriesExtend(base: seq<(string, Slot)>, mid: seq<(string, Slot)>, now: seq<(string, Slot)>, actions: seq<Action>, a: Action, threshold: int)
    requires mid == base + TrieEntries(actions, threshold)
    requires now == mid + (if RemovalAbove(a, threshold) then [TrieEntry(a)] else [])
    ensures now == base + TrieEntries(actions + [a], threshold)
  {
    TrieEntriesAppend(actions, a, threshold);
  }

  /** Every recorded entry is the entry of a long removal among the actions. */
  lemma {:induction false} TrieEntriesFrom(actions: seq<Action>, threshold: int)
    ensures forall e :: e in TrieEntries(actions, threshold) ==>
      exists i :: 0 <= i < |actions| && RemovalAbove(actions[i], threshold) && e == TrieEntry(actions[i])
  {
    if |actions| > 0 {
      var init := actions[..|actions| - 1];
      TrieEntriesFrom(init, threshold);
      forall e | e in TrieEntries(actions, threshold)
        ensures exists i :: 0 <= i < |actions| && RemovalAbove(actions[i], threshold) && e == TrieEntry(actions[i])
      {
        if e in TrieEntries(init, threshold) {
          var i :| 0 <= i < |init| && RemovalAbove(init[i], threshold) && e == TrieEntry(init[i]);
          assert actions[i] == init[i];
        } else {
          assert RemovalAbove(actions[|actions| - 1], threshold);
        }
      }
    }
  }

  /** Every long removal among the actions is recorded. */
  lemma {:induction false} TrieEntriesComplete(actions: seq<Action>, threshold: int)
    ensures forall i :: 0 <= i < |actions| && RemovalAbove(actions[i], threshold) ==>
      TrieEntry(actions[i]) in TrieEntries(actions, threshold)
  {
    if |actions| > 0 {
      var init := actions[..|actions| - 1];
      TrieEntriesComplete(init, threshold);
      forall i | 0 <= i < |actions| && RemovalAbove(actions[i], threshold)
        ensures TrieEntry(actions[i]) in TrieEntries(actions, threshold)
      {
        if i < |init| {
          assert actions[i] == init[i];
        }
      }
    }
  }

  /** The actions recorded as deleted for `actions`: the parents of the long removals. */
  function DeletedParents(actions: seq<Action>, threshold: int): set<ActionRef> {
    if |actions| == 0 then {}
    else
      var last := actions[|actions| - 1];
      DeletedParents(actions[..|actions| - 1], threshold) + (if RemovalAbove(last, threshold) then {last.parentId} else {})
  }

  /** Recording one more action adds its parent exactly when it is a long removal. */
  lemma DeletedParentsAppend(actions: seq<Action>, a: Action, threshold: int)
    ensures DeletedParents(actions + [a], threshold) ==
      DeletedParents(actions, threshold) + (if RemovalAbove(a, threshold) then {a.parentId} else {})
  {
    assert (actions + [a])[..|actions|] == actions;
  }

  /** A record set that held `base` plus the parents for `actions` and then recorded `a` holds `base` plus the parents for `actions + [a]`. */
  lemma DeletedParentsExtend(base: set<ActionRef>, mid: set<ActionRef>, now: set<ActionRef>, actions: seq<Action>, a: Action, threshold: int)
    requires mid == base + DeletedParents(actions, threshold)
    requires now == mid + (if RemovalAbove(a, threshold) then {a.parentId} else {})
    ensures now == base + DeletedParents(actions + [a], threshold)
  {
    DeletedParentsAppend(actions, a, threshold);
  }

  /** An action is recorded as deleted exactly when it is the parent of some long removal. */
  lemma {:induction false} DeletedParentsIff(actions: seq<Action>, threshold: int)
    ensures forall p :: p in DeletedParents(actions, threshold) <==>
      exists i :: 0 <= i < |actions| && RemovalAbove(actions[i], threshold) && actions[i].parentId == p
  {
    if |actions| > 0 {
      var init := actions[..|actions| - 1];
      var last := actions[|actions| - 1];
      DeletedParentsIff(init, threshold);
      forall p ensures p in DeletedParents(actions, threshold) <==>
        exists i :: 0 <= i < |actions| && RemovalAbove(actions[i], threshold) && actions[i].parentId == p
      {
        if exists i :: 0 <= i < |actions| && RemovalAbove(actions[i], threshold) && actions[i].parentId == p {
          var i :| 0 <= i < |actions| && RemovalAbove(actions[i], threshold) && actions[i].parentId == p;
          if i < |init| {
            assert init[i] == actions[i];
          }
        }
        if p in DeletedParents(init, threshold) {
          var i :| 0 <= i < |init| && RemovalAbove(init[i], threshold) && init[i].parentId == p;
          assert actions[i] == init[i];
        }
      }
    }
  }
}
