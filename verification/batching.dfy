/**
 * The batch driver of the category-enrichment job: the rows read from the
 * source table are cut into chunks of 100, and the chunks are processed one
 * after another; each row's page title is looked up on Wikipedia and, when
 * categories come back, classified, and the row is written with the result.
 *
 * The Wikipedia lookup and the classifier are network calls and appear as
 * function parameters; the table write is the returned sequence of writes.
 */
module Batching {
  import opened Wrappers
  import opened Text

  /** The chunk size used by `getData`. */
  const ChunkSize: nat := 100

  /** The elements of the chunks, chunk after chunk. */
  function Flatten<T>(chunks: seq<seq<T>>): seq<T> {
    if |chunks| == 0 then [] else Flatten(chunks[..|chunks| - 1]) + chunks[|chunks| - 1]
  }

  /** The effective chunk length: JavaScript's `i % 0` is NaN, so a size of 0 behaves like 1. */
  function Width(size: nat): (n: nat)
    ensures n >= 1 && (size > 0 ==> n == size)
  {
    if size == 0 then 1 else size
  }

  /** Every chunk is non-empty and at most `n` long, and every chunk but the last is exactly `n` long. */
  ghost predicate WellCut<T>(chunks: seq<seq<T>>, n: nat) {
    && (forall c :: 0 <= c < |chunks| ==> 1 <= |chunks[c]| <= n)
    && (forall c :: 0 <= c < |chunks| - 1 ==> |chunks[c]| == n)
  }

  /** Adding one element to the last chunk adds it at the end of the flattening. */
  lemma {:induction false} FlattenGrowLast<T>(chunks: seq<seq<T>>, x: T)
    requires |chunks| > 0
    ensures Flatten(chunks[..|chunks| - 1] + [chunks[|chunks| - 1] + [x]]) == Flatten(chunks) + [x]
  {
    var k := |chunks| - 1;
    var grown := chunks[..k] + [chunks[k] + [x]];
    assert grown[..k] == chunks[..k];
    calc {
      Flatten(grown);
      Flatten(grown[..k]) + grown[k];
      Flatten(chunks[..k]) + (chunks[k] + [x]);
      (Flatten(chunks[..k]) + chunks[k]) + [x];
      Flatten(chunks) + [x];
    }
  }

  /** Adding a new chunk adds its elements at the end of the flattening. */
  lemma {:induction false} FlattenPush<T>(chunks: seq<seq<T>>, c: seq<T>)
    ensures Flatten(chunks + [c]) == Flatten(chunks) + c
  {
    assert (chunks + [c])[..|chunks|] == chunks;
  }

  /** A new one-element chunk after a full last chunk keeps the chunks well cut. */
  lemma WellCutPush<T>(chunks: seq<seq<T>>, x: T, n: nat)
    requires WellCut(chunks, n) && n >= 1
    requires |chunks| > 0 ==> |chunks[|chunks| - 1]| == n
    ensures WellCut(chunks + [[x]], n)
  {
  }

  /** One more element in a last chunk that is not full keeps the chunks well cut. */
  lemma WellCutGrowLast<T>(chunks: seq<seq<T>>, x: T, n: nat)
    requires WellCut(chunks, n) && |chunks| > 0 && |chunks[|chunks| - 1]| < n
    ensures WellCut(chunks[..|chunks| - 1] + [chunks[|chunks| - 1] + [x]], n)
  {
  }

  /** `k` full chunks and a partial one: the last chunk ends where the flattening ends. */
  lemma {:induction false} FlattenLength<T>(chunks: seq<seq<T>>, n: nat)
    requires WellCut(chunks, n) && |chunks| > 0
    ensures |Flatten(chunks)| == (|chunks| - 1) * n + |chunks[|chunks| - 1]|
  {
    var k := |chunks| - 1;
    if k > 0 {
      var init := chunks[..k];
      assert WellCut(init, n);
      FlattenLength(init, n);
      assert |init[k - 1]| == n;
    }
  }

  /** Position `i` of a flattening of full chunks of `n` (all but the last) is in chunk `i / n` at `i % n`. */
  lemma {:induction false} FlattenIndex<T>(chunks: seq<seq<T>>, n: nat, i: nat)
    requires WellCut(chunks, n) && n >= 1 && i < |Flatten(chunks)|
    ensures i / n < |chunks| && i % n < |chunks[i / n]|
    ensures Flatten(chunks)[i] == chunks[i / n][i % n]
  {
    var k := |chunks| - 1;
    var init := chunks[..k];
    var flat := Flatten(chunks);
    assert WellCut(init, n);
    assert flat == Flatten(init) + chunks[k];
    var m := |Flatten(init)|;
    if i < m {
      FlattenIndex(init, n, i);
      var q, r := i / n, i % n;
      assert q < k && init[q] == chunks[q];
      assert flat[i] == Flatten(init)[i] == init[q][r];
    } else {
      FlattenLength(chunks, n);
      assert m == k * n;
      assert k * n <= i < k * n + n;
      DivModWithin(i, n, k);
      assert flat[i] == chunks[k][i - m];
    }
  }

  /** Multiplying by the same factor keeps the order. */
  lemma {:induction false} MulLe(a: nat, b: nat, n: nat)
    requires a <= b
    ensures a * n <= b * n
    decreases b - a
  {
    if a < b {
      MulLe(a, b - 1, n);
      assert b * n == (b - 1) * n + n;
    }
  }

  /** An index between `k*n` and `(k+1)*n` has quotient `k` and remainder `i - k*n`. */
  lemma DivModWithin(i: nat, n: nat, k: nat)
    requires n >= 1 && k * n <= i < k * n + n
    ensures i / n == k && i % n == i - k * n
  {
    var q, r := i / n, i % n;
    assert i == q * n + r && 0 <= r < n;
    if q < k {
      MulLe(q + 1, k, n);
      assert false;
    }
    if q > k {
      MulLe(k + 1, q, n);
      assert false;
    }
  }

  /** `i` counts `k` full chunks of `n` and `len` more elements: `i % n` is zero exactly when the last chunk is full. */
  lemma StartsNewChunk(i: nat, n: nat, k: nat, len: nat)
    requires n >= 1 && 1 <= len <= n && i == k * n + len
    ensures i % n == 0 <==> len == n
  {
    if len == n {
      DivModWithin(i, n, k + 1);
    } else {
      DivModWithin(i, n, k);
    }
  }

  /** After `i` elements: the chunks hold `arr[..i]`, well cut, the last one holding what `i` leaves over full chunks. */
  ghost predicate ChunkedUpTo<T>(chunks: seq<seq<T>>, arr: seq<T>, i: nat, n: nat) {
    && i <= |arr|
    && Flatten(chunks) == arr[..i]
    && WellCut(chunks, n)
    && (i == 0 <==> |chunks| == 0)
    && (i > 0 ==> i == (|chunks| - 1) * n + |chunks[|chunks| - 1]|)
  }

  /** The chunks after element `i` joins the last chunk (`joins`) or starts a new one. */
  function NextChunks<T>(chunks: seq<seq<T>>, x: T, joins: bool): seq<seq<T>>
    requires joins ==> |chunks| > 0
  {
    if joins then chunks[..|chunks| - 1] + [chunks[|chunks| - 1] + [x]] else chunks + [[x]]
  }

  /** Element `i` joins the last chunk exactly when there is one and it is not full. */
  lemma JoinsWhenNotFull<T>(chunks: seq<seq<T>>, arr: seq<T>, i: nat, size: nat)
    requires ChunkedUpTo(chunks, arr, i, Width(size))
    ensures (size > 0 && i % size != 0) <==> i > 0 && |chunks[|chunks| - 1]| < Width(size)
  {
    if i > 0 {
      StartsNewChunk(i, Width(size), |chunks| - 1, |chunks[|chunks| - 1]|);
    }
  }

  /** Joining a last chunk that is not full keeps `ChunkedUpTo`. */
  lemma GrowKeepsChunked<T>(chunks: seq<seq<T>>, arr: seq<T>, i: nat, n: nat)
    requires ChunkedUpTo(chunks, arr, i, n) && i < |arr| && i > 0 && |chunks[|chunks| - 1]| < n
    ensures ChunkedUpTo(NextChunks(chunks, arr[i], true), arr, i + 1, n)
  {
    assert arr[..i + 1] == arr[..i] + [arr[i]];
    FlattenGrowLast(chunks, arr[i]);
    WellCutGrowLast(chunks, arr[i], n);
  }

  /** Starting a new chunk after a full one (or at the start) keeps `ChunkedUpTo`. */
  lemma PushKeepsChunked<T>(chunks: seq<seq<T>>, arr: seq<T>, i: nat, n: nat)
    requires ChunkedUpTo(chunks, arr, i, n) && i < |arr| && n >= 1
    requires i > 0 ==> |chunks[|chunks| - 1]| == n
    ensures ChunkedUpTo(NextChunks(chunks, arr[i], false), arr, i + 1, n)
  {
    assert arr[..i + 1] == arr[..i] + [arr[i]];
    FlattenPush(chunks, [arr[i]]);
    WellCutPush(chunks, arr[i], n);
    if i > 0 {
      assert |chunks| * n == (|chunks| - 1) * n + n;
    }
  }

  /** One step of the reducer keeps `ChunkedUpTo`. */
  lemma ChunkStep<T>(chunks: seq<seq<T>>, arr: seq<T>, i: nat, size: nat)
    requires ChunkedUpTo(chunks, arr, i, Width(size)) && i < |arr|
    ensures (size > 0 && i % size != 0) ==> |chunks| > 0
    ensures (size > 0 && i % size != 0) ==> ChunkedUpTo(NextChunks(chunks, arr[i], true), arr, i + 1, Width(size))
    ensures !(size > 0 && i % size != 0) ==> ChunkedUpTo(NextChunks(chunks, arr[i], false), arr, i + 1, Width(size))
  {
    JoinsWhenNotFull(chunks, arr, i, size);
    if size > 0 && i % size != 0 {
      GrowKeepsChunked(chunks, arr, i, Width(size));
    } else {
      PushKeepsChunked(chunks, arr, i, Width(size));
    }
  }

  /** The `chunk` reducer: element `i` starts a new chunk when `i % size` is 0 (or NaN), else joins the last. */
  method Chunk<T>(arr: seq<T>, size: nat) returns (chunks: seq<seq<T>>)
    ensures Flatten(chunks) == arr
    ensures WellCut(chunks, Width(size))
    ensures |arr| == 0 <==> |chunks| == 0
    ensures forall i :: 0 <= i < |arr| ==>
      i / Width(size) < |chunks| && i % Width(size) < |chunks[i / Width(size)]|
      && chunks[i / Width(size)][i % Width(size)] == arr[i]
  {
    chunks := [];
    var i := 0;
    while i < |arr|
      invariant ChunkedUpTo(chunks, arr, i, Width(size))
    {
      ChunkStep(chunks, arr, i, size);
      if size > 0 && i % size != 0 {
        chunks := chunks[..|chunks| - 1] + [chunks[|chunks| - 1] + [arr[i]]];
      } else {
        chunks := chunks + [[arr[i]]];
      }
      i := i + 1;
    }
    assert arr[..i] == arr;
    ChunkPositions(chunks, Width(size));
  }

  /** In well-cut chunks of `n`, element `i` of the flattening is at position `i % n` of chunk `i / n`. */
  lemma {:induction false} ChunkPositions<T>(chunks: seq<seq<T>>, n: nat)
    requires WellCut(chunks, n) && n >= 1
    ensures forall i :: 0 <= i < |Flatten(chunks)| ==>
      i / n < |chunks| && i % n < |chunks[i / n]| && chunks[i / n][i % n] == Flatten(chunks)[i]
  {
    forall i | 0 <= i < |Flatten(chunks)|
      ensures i / n < |chunks| && i % n < |chunks[i / n]| && chunks[i / n][i % n] == Flatten(chunks)[i]
    {
      FlattenIndex(chunks, n, i);
    }
  }

  // ---------------------------------------------------------------------
  // Rows and chunks

  /** The title looked up on Wikipedia: the page title without its first five characters (`Talk:`). */
  function LookupTitle(pageTitle: string): (t: string)
    ensures |pageTitle| >= 5 ==> pageTitle == pageTitle[..5] + t
    ensures |pageTitle| <= 5 ==> t == ""
  {
    SuffixFrom(pageTitle, 5)
  }

  /** One row write: the row with the classifier's categories, or None (undefined) when there were no categories. */
  datatype RowWrite<C> = RowWrite(pageTitle: string, categories: Option<C>)

  /**
   * The per-row step of `processData`: the row is sent to the classifier only when the lookup
   * returned a category string; the classifier is given that string and the lookup title.
   */
  function ProcessRow<C>(pageTitle: string, lookup: string -> Option<string>,
                         classify: (string, string) -> Option<C>): (w: RowWrite<C>)
    ensures w.pageTitle == pageTitle
    ensures lookup(LookupTitle(pageTitle)).None? ==> w.categories.None?
    ensures lookup(LookupTitle(pageTitle)).Some? ==>
      w.categories == classify(lookup(LookupTitle(pageTitle)).value, LookupTitle(pageTitle))
  {
    var title := LookupTitle(pageTitle);
    match lookup(title)
    case None => RowWrite(pageTitle, None)
    case Some(catString) => RowWrite(pageTitle, classify(catString, title))
  }

  /** The writes of a sequence of rows, one per row; the model fixes them in row order. */
  function ProcessRows<C>(rows: seq<string>, lookup: string -> Option<string>,
                          classify: (string, string) -> Option<C>): (ws: seq<RowWrite<C>>)
    ensures |ws| == |rows|
    ensures forall i :: 0 <= i < |rows| ==> ws[i] == ProcessRow(rows[i], lookup, classify)
  {
    if |rows| == 0 then []
    else ProcessRows(rows[..|rows| - 1], lookup, classify) + [ProcessRow(rows[|rows| - 1], lookup, classify)]
  }

  /** Writes of consecutive row sequences are consecutive. */
  lemma ProcessRowsAppend<C>(a: seq<string>, b: seq<string>, lookup: string -> Option<string>,
                             classify: (string, string) -> Option<C>)
    ensures ProcessRows(a + b, lookup, classify) == ProcessRows(a, lookup, classify) + ProcessRows(b, lookup, classify)
  {
  }

  /**
   * `processData(chunks, 0)` and the chain of timers it schedules: chunk `i` is processed, then
   * chunk `i + 1` while `i < chunks.length - 1`. With no chunks, `chunks[0].map` fails.
   */
  method ProcessData<C>(chunks: seq<seq<string>>, lookup: string -> Option<string>,
                        classify: (string, string) -> Option<C>)
    returns (visited: seq<nat>, writes: Result<seq<RowWrite<C>>, string>)
    ensures |chunks| == 0 ==> writes.Err? && visited == []
    ensures |chunks| > 0 ==> writes == Ok(ProcessRows(Flatten(chunks), lookup, classify))
    ensures |visited| == |chunks| && forall k :: 0 <= k < |visited| ==> visited[k] == k
  {
    if |chunks| == 0 {
      return [], Err("chunks[0] is undefined");
    }
    var done: seq<RowWrite<C>> := [];
    visited := [];
    var i := 0;
    while true
      invariant 0 <= i < |chunks|
      invariant |visited| == i && forall k :: 0 <= k < i ==> visited[k] == k
      invariant done == ProcessRows(Flatten(chunks[..i]), lookup, classify)
      decreases |chunks| - i
    {
      var ws := ProcessRows(chunks[i], lookup, classify);
      assert chunks[..i + 1] == chunks[..i] + [chunks[i]];
      FlattenPush(chunks[..i], chunks[i]);
      ProcessRowsAppend(Flatten(chunks[..i]), chunks[i], lookup, classify);
      done := done + ws;
      visited := visited + [i];
      if i < |chunks| - 1 {
        i := i + 1;
      } else {
        break;
      }
    }
    assert chunks[..i + 1] == chunks;
    writes := Ok(done);
  }

  /** `getData`: the rows in chunks of 100; one write per row, fixed here in row order, and none without rows. */
  method GetData<C>(rows: seq<string>, lookup: string -> Option<string>,
                    classify: (string, string) -> Option<C>)
    returns (writes: Result<seq<RowWrite<C>>, string>)
    ensures |rows| == 0 ==> writes.Err?
    ensures |rows| > 0 ==> writes == Ok(ProcessRows(rows, lookup, classify))
  {
    var chunks := Chunk(rows, ChunkSize);
    var _, w := ProcessData(chunks, lookup, classify);
    writes := w;
  }
}
