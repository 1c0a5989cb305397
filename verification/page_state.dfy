/**
 * The data of talk-page conversation reconstruction, shared by the current and the older
 * constructor: tokens, diff operations, the page state (a map from token offset to the
 * action that starts there), the actions produced for a revision, and the helper routines
 * the reconstruction calls but whose code is not part of this model (tokenizer, action
 * location, the deleted-comment trie, the action constructors).
 */
module PageState {
  import opened Wrappers

  /** A token of the page text; `isBreak` is `type == 'break'`. */
  datatype Token = Token(text: string, isBreak: bool)

  /** `''.join(tokens)`. */
  function TokensText(ts: seq<Token>): (s: string)
    ensures |ts| == 0 ==> s == ""
  {
    if |ts| == 0 then "" else TokensText(ts[..|ts| - 1]) + ts[|ts| - 1].text
  }

  /**
   * An action id as the page state holds it: a real id, the `-1` of the page boundary, or
   * Python's None.
   */
  datatype ActionRef = Null | MinusOne | Id(name: string)

  /** A page-state value `(action_id, indentation)`. */
  datatype Slot = Slot(id: ActionRef, indentation: int)

  /** `(-1, -1)`: the value of the end-of-page boundary. */
  const Boundary: Slot := Slot(MinusOne, -1)

  /** `page['actions']`: token offset to the action starting there. */
  type Actions = map<int, Slot>

  datatype Page = Page(pageId: string, pageTitle: string, actions: Actions)

  datatype OpName = Equal | Insert | Delete

  /** One operation of the token diff between the previous and the current revision. */
  datatype DiffOp = DiffOp(name: OpName, a1: int, a2: int, b1: int, b2: int, tokens: seq<Token>)

  /**
   * A piece of an insertion or deletion: old offsets `[a1, a2)`, new offsets `[b1, b2)` and its
   * tokens. Comment additions, partial deletions and restored pieces all have this shape.
   */
  datatype Span = Span(a1: int, a2: int, b1: int, b2: int, tokens: seq<Token>)

  /** A removal: the page-state value of the removed action and the deleted piece. */
  datatype Removal = Removal(slot: Slot, span: Span)

  /** The revision being processed; `text` is already cleaned and `diff` already computed. */
  datatype Revision = Revision(revId: int, pageId: string, pageTitle: string, text: string, diff: seq<DiffOp>)

  /** A revision as the constructors receive it, before cleaning and diffing. */
  datatype RawRevision = RawRevision(revId: int, timestamp: string, pageId: string, pageTitle: string, text: string)

  /**
   * The routines that prepare a revision, whose code is not modelled: the markup cleaner, and
   * the token diff of the previous content against the cleaned text.
   */
  datatype Preparation = Preparation(clean: string -> string, diff: (string, string) -> seq<DiffOp>)

  datatype ActionKind =
    | CommentAdding | CommentModification | SectionCreation
    | CommentRemoval | CommentRestoration | CommentRearrangement

  /** An author: `(user_id, user_text)`. */
  type Author = (string, string)

  /**
   * A conversation action. The last four fields are filled in by the constructor's
   * post-processing and are None when the action comes out of `insert`.
   */
  datatype Action = Action(
    kind: ActionKind, id: string, parentId: ActionRef, replyToId: ActionRef,
    userId: string, userText: string, content: seq<Token>, indentation: int,
    conversationId: Option<string>, authors: Option<set<Author>>,
    pageId: Option<string>, pageTitle: Option<string>)

  /** What `comment_adding` and `comment_modification` return: the action, its offset, its id and indentation. */
  datatype Created = Created(action: Action, pos: int, id: string, indentation: int)

  /** The optional bound argument of `locate_new_token_pos`. */
  datatype Bound = NoBound | LeftBound | RightBound

  /** A match reported by the trie: characters `[k1, k2)` of the text and the stored value. */
  datatype TrieMatch = TrieMatch(k1: int, k2: int, val: Slot)

  /** The deleted-comment trie: the texts added to it with their values, in insertion order. */
  type Trie = seq<(string, Slot)>

  /**
   * The routines the reconstruction calls whose code is not modelled: the tokenizer, the
   * section divider, action location, the trie search and the action constructors.
   */
  datatype Helpers = Helpers(
    tokenize: string -> seq<Token>,
    divide: (DiffOp, string) -> seq<Span>,
    actionStart: (seq<int>, int) -> int,
    actionEnd: (seq<int>, int) -> int,
    locate: (int, seq<DiffOp>, Bound) -> int,
    findAllLong: (Trie, string) -> seq<TrieMatch>,
    commentAdding: (Span, Revision, Actions) -> Created,
    commentModification: (ActionRef, seq<Token>, int, int, Revision, Actions, int) -> Created,
    commentRemoval: (Removal, Revision) -> Action,
    commentRestoration: (ActionRef, seq<Token>, int, Revision, int) -> Action,
    commentRearrangement: (ActionRef, seq<Token>, int, Revision, int) -> Action)

  // ---------------------------------------------------------------------
  // Sorted offsets

  /** Every finite non-empty set of offsets has a least element. */
  lemma {:induction false} Least(s: set<int>) returns (m: int)
    requires s != {}
    ensures m in s && forall x :: x in s ==> m <= x
    decreases |s|
  {
    if forall x :: x !in s {
      assert false;
    }
    var y :| y in s;
    if s == {y} {
      m := y;
    } else {
      var lo := Least(s - {y});
      m := if y < lo then y else lo;
      forall x | x in s ensures m <= x {
        if x != y {
          assert x in s - {y};
        }
      }
    }
  }

  /** Every finite non-empty set of offsets has a greatest element. */
  lemma {:induction false} Greatest(s: set<int>) returns (m: int)
    requires s != {}
    ensures m in s && forall x :: x in s ==> x <= m
    decreases |s|
  {
    if forall x :: x !in s {
      assert false;
    }
    var y :| y in s;
    if s == {y} {
      m := y;
    } else {
      var hi := Greatest(s - {y});
      m := if y > hi then y else hi;
      forall x | x in s ensures x <= m {
        if x != y {
          assert x in s - {y};
        }
      }
    }
  }

  lemma HasLeast(s: set<int>)
    requires s != {}
    ensures exists m :: m in s && forall x :: x in s ==> m <= x
  {
    var m := Least(s);
  }

  lemma HasGreatest(s: set<int>)
    requires s != {}
    ensures exists m :: m in s && forall x :: x in s ==> x <= m
  {
    var m := Greatest(s);
  }

  function MinOf(s: set<int>): (m: int)
    requires s != {}
    ensures m in s && forall x :: x in s ==> m <= x
  {
    HasLeast(s);
    var m :| m in s && forall x :: x in s ==> m <= x;
    m
  }

  function MaxOf(s: set<int>): (m: int)
    requires s != {}
    ensures m in s && forall x :: x in s ==> x <= m
  {
    HasGreatest(s);
    var m :| m in s && forall x :: x in s ==> x <= m;
    m
  }

  predicate StrictlySorted(s: seq<int>) {
    forall i, j :: 0 <= i < j < |s| ==> s[i] < s[j]
  }

  /** `sorted(keys)`: the offsets in ascending order, each once. */
  function SortedSet(s: set<int>): (r: seq<int>)
    ensures StrictlySorted(r)
    ensures forall i :: 0 <= i < |r| ==> r[i] in s
    ensures forall x :: x in s <==> x in r
    ensures |r| == |s|
    decreases |s|
  {
    if s == {} then []
    else
      var m := MinOf(s);
      [m] + SortedSet(s - {m})
  }

  /** The largest key of a sorted key list is its last element. */
  lemma SortedLastIsMax(s: set<int>)
    requires s != {}
    ensures SortedSet(s)[|SortedSet(s)| - 1] == MaxOf(s)
  {
    var r := SortedSet(s);
    assert MaxOf(s) in r;
    assert r[|r| - 1] in s;
  }

  /**
   * `find_pos(pos, lst)`: the index of the last offset of `lst` that is at most `pos`, or 0
   * when there is none (`FindPosLast`).
   */
  function FindPos(pos: int, lst: seq<int>): (i: nat)
    ensures |lst| == 0 ==> i == 0
    ensures |lst| > 0 ==> i < |lst|
  {
    LastAtMost(pos, lst, |lst|)
  }

  /** The index of the last of the first `n` offsets that is at most `pos`, or 0. */
  function LastAtMost(pos: int, lst: seq<int>, n: nat): (i: nat)
    requires n <= |lst|
    ensures n == 0 ==> i == 0
    ensures n > 0 ==> i < n
  {
    if n == 0 then 0
    else if lst[n - 1] <= pos then n - 1
    else LastAtMost(pos, lst, n - 1)
  }

  lemma {:induction false} LastAtMostSpec(pos: int, lst: seq<int>, n: nat)
    requires n <= |lst|
    ensures forall j :: LastAtMost(pos, lst, n) < j < n ==> lst[j] > pos
    ensures (exists j :: 0 <= j < n && lst[j] <= pos) ==> lst[LastAtMost(pos, lst, n)] <= pos
  {
    if n > 0 && lst[n - 1] > pos {
      LastAtMostSpec(pos, lst, n - 1);
    }
  }

  /** Every offset after the one `find_pos` picks is past `pos`, and the picked one is at most `pos` when any is. */
  lemma FindPosLast(pos: int, lst: seq<int>)
    ensures forall j :: FindPos(pos, lst) < j < |lst| ==> lst[j] > pos
    ensures (exists j :: 0 <= j < |lst| && lst[j] <= pos) ==> lst[FindPos(pos, lst)] <= pos
  {
    LastAtMostSpec(pos, lst, |lst|);
  }

  /** On a sorted list whose first offset is at most `pos`, `find_pos` is monotone in `pos`. */
  lemma FindPosMonotone(p: int, q: int, lst: seq<int>)
    requires StrictlySorted(lst) && |lst| > 0 && lst[0] <= p <= q
    ensures FindPos(p, lst) <= FindPos(q, lst)
  {
    FindPosLast(p, lst);
    FindPosLast(q, lst);
    var i := FindPos(p, lst);
    assert lst[i] <= q;
  }

  // ---------------------------------------------------------------------
  // The page state

  /** A page state the reconstruction accepts (the assertions at the end of `insert`). */
  predicate WellFormed(actions: Actions) {
    && 0 in actions
    && actions[MaxOf(actions.Keys)] == Boundary
    && forall k :: k in actions && k != MaxOf(actions.Keys) ==> actions[k] != Boundary
  }

  /** `page_creation`: a page whose only offset, 0, is the boundary. */
  function NewPage(pageId: string, pageTitle: string): (p: Page)
    ensures p.actions.Keys == {0} && p.actions[0] == Boundary
    ensures p.pageId == pageId && p.pageTitle == pageTitle
  {
    Page(pageId, pageTitle, map[0 := Boundary])
  }

  /** A new page is well formed: the empty page is its own end. */
  lemma NewPageWellFormed(pageId: string, pageTitle: string)
    ensures WellFormed(NewPage(pageId, pageTitle).actions)
  {
    var a := NewPage(pageId, pageTitle).actions;
    assert MaxOf(a.Keys) == 0;
  }
}
