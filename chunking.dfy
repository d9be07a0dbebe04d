/**
 * Cutting a sequence into consecutive pieces of a fixed size, the last one
 * possibly shorter. Both the statement batches of the database loader and
 * the SQL file chunks of the generator are cut this way.
 */
module Chunking {

  /** The pieces laid end to end. */
  function Flatten<T>(chunks: seq<seq<T>>): seq<T>
  {
    if chunks == [] then [] else Flatten(chunks[..|chunks| - 1]) + chunks[|chunks| - 1]
  }

  /**
   * `chunks` cuts `s` into pieces of `n`: laid end to end they give `s`, no
   * piece is empty or longer than `n`, and every piece but the last has
   * exactly `n` elements.
   */
  ghost predicate IsChunking<T>(chunks: seq<seq<T>>, s: seq<T>, n: nat)
  {
    && Flatten(chunks) == s
    && (forall i :: 0 <= i < |chunks| ==> 1 <= |chunks[i]| <= n)
    && (forall i :: 0 <= i < |chunks| - 1 ==> |chunks[i]| == n)
  }

  lemma {:induction false} FlattenCons<T>(c: seq<T>, rest: seq<seq<T>>)
    ensures Flatten([c] + rest) == c + Flatten(rest)
  {
    if rest != [] {
      var all := [c] + rest;
      assert all[..|all| - 1] == [c] + rest[..|rest| - 1];
      FlattenCons(c, rest[..|rest| - 1]);
    }
  }

  /** Adding a piece at the end adds its elements at the end. */
  lemma FlattenSnoc<T>(chunks: seq<seq<T>>, c: seq<T>)
    ensures Flatten(chunks + [c]) == Flatten(chunks) + c
  {
    assert (chunks + [c])[..|chunks|] == chunks;
  }

  /**
   * The state of a loop that fills a buffer and empties it into `chunks`
   * each time it holds `n` elements: everything seen so far is the full
   * chunks followed by the buffer.
   */
  ghost predicate Filling<T>(chunks: seq<seq<T>>, buffer: seq<T>, s: seq<T>, n: nat)
  {
    && Flatten(chunks) + buffer == s
    && (forall i :: 0 <= i < |chunks| ==> |chunks[i]| == n)
    && |buffer| < n
  }

  /** One more element goes into a buffer that does not fill up. */
  lemma FillingAdd<T>(chunks: seq<seq<T>>, buffer: seq<T>, s: seq<T>, n: nat, x: T)
    requires Filling(chunks, buffer, s, n) && |buffer| + 1 < n
    ensures Filling(chunks, buffer + [x], s + [x], n)
  {
    assert (Flatten(chunks) + buffer) + [x] == Flatten(chunks) + (buffer + [x]);
  }

  /** One more element fills the buffer, which is emptied into a new chunk. */
  lemma FillingFlush<T>(chunks: seq<seq<T>>, buffer: seq<T>, s: seq<T>, n: nat, x: T)
    requires Filling(chunks, buffer, s, n) && |buffer| + 1 == n
    ensures Filling(chunks + [buffer + [x]], [], s + [x], n)
  {
    assert (Flatten(chunks) + buffer) + [x] == Flatten(chunks) + (buffer + [x]);
    FlattenSnoc(chunks, buffer + [x]);
    var c := chunks + [buffer + [x]];
    assert forall i :: 0 <= i < |c| ==> c[i] == if i < |chunks| then chunks[i] else buffer + [x];
  }

  /** Emptying a non-empty buffer at the end completes a chunking. */
  lemma FillingDone<T>(chunks: seq<seq<T>>, buffer: seq<T>, s: seq<T>, n: nat)
    requires Filling(chunks, buffer, s, n)
    ensures buffer == [] ==> IsChunking(chunks, s, n)
    ensures buffer != [] ==> IsChunking(chunks + [buffer], s, n)
  {
    FlattenSnoc(chunks, buffer);
    var c := chunks + [buffer];
    assert forall i :: 0 <= i < |c| ==> c[i] == if i < |chunks| then chunks[i] else buffer;
    assert buffer == [] ==> Flatten(chunks) + buffer == Flatten(chunks);
  }

  /** Every element of a chunk is an element of the sequence it cuts. */
  lemma {:induction false} FlattenElement<T>(chunks: seq<seq<T>>, b: nat, k: nat)
    requires b < |chunks| && k < |chunks[b]|
    ensures exists m :: 0 <= m < |Flatten(chunks)| && Flatten(chunks)[m] == chunks[b][k]
  {
    var n := |chunks|;
    var front := Flatten(chunks[..n - 1]);
    assert Flatten(chunks) == front + chunks[n - 1];
    if b == n - 1 {
      assert Flatten(chunks)[|front| + k] == chunks[b][k];
    } else {
      FlattenElement(chunks[..n - 1], b, k);
      var m :| 0 <= m < |front| && front[m] == chunks[b][k];
      assert Flatten(chunks)[m] == chunks[b][k];
    }
  }

  lemma {:induction false} FlattenLength<T>(chunks: seq<seq<T>>, n: nat)
    requires forall i :: 0 <= i < |chunks| ==> 1 <= |chunks[i]|
    ensures |Flatten(chunks)| >= |chunks|
  {
    if chunks != [] {
      FlattenLength(chunks[..|chunks| - 1], n);
    }
  }

  /** The first piece of a chunking is the first `min(n, |s|)` elements. */
  lemma {:induction false} ChunkingHead<T>(chunks: seq<seq<T>>, s: seq<T>, n: nat)
    requires IsChunking(chunks, s, n) && chunks != []
    ensures |chunks[0]| == if |s| < n then |s| else n
    ensures chunks[0] == s[..|chunks[0]|]
    ensures IsChunking(chunks[1..], s[|chunks[0]|..], n)
  {
    assert chunks == [chunks[0]] + chunks[1..];
    FlattenCons(chunks[0], chunks[1..]);
    if |chunks| > 1 {
      FlattenLength(chunks[1..], n);
    }
  }

  /** There is only one way to cut a sequence into pieces of `n`. */
  lemma {:induction false} ChunkingUnique<T>(c1: seq<seq<T>>, c2: seq<seq<T>>, s: seq<T>, n: nat)
    requires IsChunking(c1, s, n) && IsChunking(c2, s, n)
    ensures c1 == c2
    decreases |s|
  {
    if c1 == [] || c2 == [] {
      FlattenLength(c1, n);
      FlattenLength(c2, n);
    } else {
      ChunkingHead(c1, s, n);
      ChunkingHead(c2, s, n);
      ChunkingUnique(c1[1..], c2[1..], s[|c1[0]|..], n);
      assert c1 == [c1[0]] + c1[1..] && c2 == [c2[0]] + c2[1..];
    }
  }

  /** A chunking of `s` into pieces of `n` has `ceil(|s| / n)` pieces:
   *  `k` pieces hold more than `(k - 1) * n` and at most `k * n` elements. */
  lemma {:induction false} ChunkingCount<T>(chunks: seq<seq<T>>, s: seq<T>, n: nat)
    requires IsChunking(chunks, s, n) && n >= 1
    ensures |chunks| * n - n < |s| <= |chunks| * n
    decreases |s|
  {
    if chunks != [] {
      ChunkingHead(chunks, s, n);
      ChunkingCount(chunks[1..], s[|chunks[0]|..], n);
    }
  }
  /** The pieces of `n` taken from the front: the cutting `split_chunks` performs. */
  function ChunksOf<T>(s: seq<T>, n: nat): seq<seq<T>>
    requires n >= 1
    decreases |s|
  {
    if s == [] then [] else if |s| <= n then [s] else [s[..n]] + ChunksOf(s[n..], n)
  }

  /** Taking pieces of `n` from the front is a chunking of `s` into pieces of `n`. */
  lemma {:induction false} ChunksOfIsChunking<T>(s: seq<T>, n: nat)
    requires n >= 1
    ensures IsChunking(ChunksOf(s, n), s, n)
    decreases |s|
  {
    if s != [] && |s| > n {
      var rest := ChunksOf(s[n..], n);
      ChunksOfIsChunking(s[n..], n);
      FlattenCons(s[..n], rest);
      assert s[..n] + s[n..] == s;
      var c := [s[..n]] + rest;
      assert forall i :: 0 < i < |c| ==> c[i] == rest[i - 1];
    } else if s != [] {
      assert Flatten([s]) == Flatten([s][..0]) + s;
    }
  }
}
