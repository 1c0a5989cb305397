/**
 * Stable sorting by a numeric key: the model of Python's `sorted(xs, key=k)`
 * and of JavaScript's (stable) `Array.prototype.sort` with a comparator that
 * compares one numeric property.
 */
module Sorting {

  /** Keys never decrease along `s`. */
  predicate SortedBy<T>(s: seq<T>, key: T -> real) {
    forall i, j :: 0 <= i < j < |s| ==> key(s[i]) <= key(s[j])
  }

  /** Inserts `x` after every leading element whose key is at most `key(x)`. */
  function InsertBy<T>(x: T, s: seq<T>, key: T -> real): seq<T> {
    if |s| == 0 then [x]
    else if key(x) < key(s[0]) then [x] + s
    else [s[0]] + InsertBy(x, s[1..], key)
  }

  /** Inserting adds exactly `x`. */
  lemma {:induction false} InsertByElements<T>(x: T, s: seq<T>, key: T -> real)
    ensures |InsertBy(x, s, key)| == |s| + 1
    ensures multiset(InsertBy(x, s, key)) == multiset(s) + multiset{x}
  {
    if |s| > 0 && key(s[0]) <= key(x) {
      InsertByElements(x, s[1..], key);
      assert s == [s[0]] + s[1..];
    }
  }

  /** The head of a sorted sequence has the least key. */
  lemma HeadLeast<T>(s: seq<T>, key: T -> real, y: T)
    requires SortedBy(s, key) && |s| > 0 && y in multiset(s[1..])
    ensures key(s[0]) <= key(y)
  {
    var j :| 0 <= j < |s[1..]| && s[1..][j] == y;
    assert s[j + 1] == y;
  }

  /** Putting an element with a key at most every key in front of a sorted sequence keeps it sorted. */
  lemma ConsSorted<T>(y: T, r: seq<T>, key: T -> real)
    requires SortedBy(r, key)
    requires forall i :: 0 <= i < |r| ==> key(y) <= key(r[i])
    ensures SortedBy([y] + r, key)
  {
    var t := [y] + r;
    forall i, j | 0 <= i < j < |t| ensures key(t[i]) <= key(t[j]) {
      assert t[j] == r[j - 1];
      if i > 0 {
        assert t[i] == r[i - 1];
      }
    }
  }

  /** Inserting into a sorted sequence keeps it sorted. */
  lemma {:induction false} InsertBySorted<T>(x: T, s: seq<T>, key: T -> real)
    requires SortedBy(s, key)
    ensures SortedBy(InsertBy(x, s, key), key)
  {
    if |s| == 0 {
    } else if key(x) < key(s[0]) {
      forall i | 0 <= i < |s| ensures key(x) <= key(s[i]) {
        assert key(s[0]) <= key(s[i]);
      }
      ConsSorted(x, s, key);
    } else {
      var tail := s[1..];
      assert SortedBy(tail, key);
      var rest := InsertBy(x, tail, key);
      InsertBySorted(x, tail, key);
      InsertByElements(x, tail, key);
      forall i | 0 <= i < |rest| ensures key(s[0]) <= key(rest[i]) {
        assert rest[i] in multiset(rest);
        if rest[i] != x {
          HeadLeast(s, key, rest[i]);
        }
      }
      ConsSorted(s[0], rest, key);
    }
  }

  /** Insertion sort: each element goes after the equal-keyed elements before it. */
  function SortBy<T>(s: seq<T>, key: T -> real): (r: seq<T>)
    ensures SortedBy(r, key)
    ensures multiset(r) == multiset(s)
    ensures |r| == |s|
  {
    if |s| == 0 then []
    else
      var sorted := SortBy(s[..|s| - 1], key);
      InsertBySorted(s[|s| - 1], sorted, key);
      InsertByElements(s[|s| - 1], sorted, key);
      assert s == s[..|s| - 1] + [s[|s| - 1]];
      InsertBy(s[|s| - 1], sorted, key)
  }

  /** The elements of `s` whose key is `k`, in their order in `s`. */
  function KeyIs<T>(s: seq<T>, key: T -> real, k: real): (r: seq<T>)
    ensures |r| <= |s|
    ensures forall i :: 0 <= i < |r| ==> key(r[i]) == k
  {
    if |s| == 0 then []
    else (if key(s[0]) == k then [s[0]] else []) + KeyIs(s[1..], key, k)
  }

  /** Selecting by key distributes over concatenation. */
  lemma {:induction false} KeyIsAppend<T>(a: seq<T>, b: seq<T>, key: T -> real, k: real)
    ensures KeyIs(a + b, key, k) == KeyIs(a, key, k) + KeyIs(b, key, k)
  {
    if |a| == 0 {
      assert a + b == b;
    } else {
      KeyIsAppend(a[1..], b, key, k);
      assert (a + b)[0] == a[0] && (a + b)[1..] == a[1..] + b;
    }
  }

  /** No element with key `k` selects nothing. */
  lemma {:induction false} NoneWithKey<T>(s: seq<T>, key: T -> real, k: real)
    requires forall i :: 0 <= i < |s| ==> key(s[i]) != k
    ensures KeyIs(s, key, k) == []
  {
    if |s| > 0 {
      NoneWithKey(s[1..], key, k);
    }
  }

  /** Selecting from `[x] + s` looks at `x` first. */
  lemma KeyIsCons<T>(x: T, s: seq<T>, key: T -> real, k: real)
    ensures KeyIs([x] + s, key, k) == (if key(x) == k then [x] else []) + KeyIs(s, key, k)
  {
    assert ([x] + s)[0] == x && ([x] + s)[1..] == s;
  }

  /** Inserting into a sorted sequence puts `x` after every element with its key. */
  lemma {:induction false} InsertByKeyIs<T>(x: T, s: seq<T>, key: T -> real, k: real)
    requires SortedBy(s, key)
    ensures KeyIs(InsertBy(x, s, key), key, k) == KeyIs(s, key, k) + (if key(x) == k then [x] else [])
  {
    if |s| == 0 {
      KeyIsCons(x, s, key, k);
      assert [x] + s == [x];
    } else if key(x) < key(s[0]) {
      KeyIsCons(x, s, key, k);
      if key(x) == k {
        forall i | 0 <= i < |s| ensures key(s[i]) != k {
          assert key(s[0]) <= key(s[i]);
        }
        NoneWithKey(s, key, k);
      }
    } else {
      var rest := InsertBy(x, s[1..], key);
      assert InsertBy(x, s, key) == [s[0]] + rest;
      SortedTail(s, key);
      InsertByKeyIs(x, s[1..], key, k);
      KeyIsCons(s[0], rest, key, k);
      KeyIsCons(s[0], s[1..], key, k);
      assert [s[0]] + s[1..] == s;
    }
  }

  /** The tail of a sorted sequence is sorted. */
  lemma SortedTail<T>(s: seq<T>, key: T -> real)
    requires SortedBy(s, key) && |s| > 0
    ensures SortedBy(s[1..], key)
  {
    forall i, j | 0 <= i < j < |s[1..]| ensures key(s[1..][i]) <= key(s[1..][j]) {
      assert s[1..][i] == s[i + 1] && s[1..][j] == s[j + 1];
    }
  }

  /** The sort is stable: the elements sharing a key keep their input order. */
  lemma {:induction false} SortByStable<T>(s: seq<T>, key: T -> real)
    ensures forall k :: KeyIs(SortBy(s, key), key, k) == KeyIs(s, key, k)
  {
    if |s| > 0 {
      var init, last := s[..|s| - 1], s[|s| - 1];
      SortByStable(init, key);
      SortByLast(s, init, last, key);
      assert s == init + [last];
      forall k ensures KeyIs(SortBy(s, key), key, k) == KeyIs(s, key, k) {
        StableStep(init, last, key, k);
      }
    }
  }

  /** Inserting the last element into the stably sorted front keeps the order among equal keys. */
  lemma StableStep<T>(init: seq<T>, last: T, key: T -> real, k: real)
    requires KeyIs(SortBy(init, key), key, k) == KeyIs(init, key, k)
    ensures KeyIs(InsertBy(last, SortBy(init, key), key), key, k) == KeyIs(init + [last], key, k)
  {
    InsertByKeyIs(last, SortBy(init, key), key, k);
    KeyIsAppend(init, [last], key, k);
    KeyIsCons(last, [], key, k);
    assert [last] + [] == [last];
  }

  /** An element whose key is at least every key goes to the end. */
  lemma {:induction false} InsertAtEnd<T>(x: T, s: seq<T>, key: T -> real)
    requires forall i :: 0 <= i < |s| ==> key(s[i]) <= key(x)
    ensures InsertBy(x, s, key) == s + [x]
  {
    if |s| > 0 {
      InsertAtEnd(x, s[1..], key);
    }
  }

  /** Sorting a non-empty sequence inserts its last element into the sorted rest. */
  lemma SortByLast<T>(s: seq<T>, init: seq<T>, last: T, key: T -> real)
    requires |s| > 0 && init == s[..|s| - 1] && last == s[|s| - 1]
    ensures SortBy(s, key) == InsertBy(last, SortBy(init, key), key)
  {
  }

  /** The front of a sorted sequence is sorted and its last element has the greatest key. */
  lemma SortedFront<T>(s: seq<T>, init: seq<T>, key: T -> real)
    requires SortedBy(s, key) && |s| > 0 && init == s[..|s| - 1]
    ensures SortedBy(init, key)
    ensures forall i :: 0 <= i < |init| ==> key(init[i]) <= key(s[|s| - 1])
  {
    forall i, j | 0 <= i < j < |init| ensures key(init[i]) <= key(init[j]) {
      assert init[i] == s[i] && init[j] == s[j];
    }
    forall i | 0 <= i < |init| ensures key(init[i]) <= key(s[|s| - 1]) {
      assert init[i] == s[i];
    }
  }

  /** A sorted input comes back unchanged. */
  lemma {:induction false} SortBySorted<T>(s: seq<T>, key: T -> real)
    requires SortedBy(s, key)
    ensures SortBy(s, key) == s
  {
    if |s| > 0 {
      var init, last := s[..|s| - 1], s[|s| - 1];
      SortedFront(s, init, key);
      SortBySorted(init, key);
      InsertAtEnd(last, init, key);
      SortByLast(s, init, last, key);
      calc {
        SortBy(s, key);
        InsertBy(last, SortBy(init, key), key);
        InsertBy(last, init, key);
        init + [last];
        s;
      }
    }
  }
}
