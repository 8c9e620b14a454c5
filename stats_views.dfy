// The statistics view's helper `chunked_iterable`, which cuts a sequence
// into consecutive chunks of `n` items (the last one possibly shorter), as
// the list of chunks its generator yields.
module StatsViews {
  import opened Wrappers

  /** The chunks joined back together. */
  function Flatten<T>(chunks: seq<seq<T>>): seq<T> {
    if chunks == [] then [] else Flatten(Front(chunks)) + Last(chunks)
  }

  lemma FlattenSnoc<T>(chunks: seq<seq<T>>, c: seq<T>)
    ensures Flatten(chunks + [c]) == Flatten(chunks) + c
  {
    assert Front(chunks + [c]) == chunks;
  }

  /** `k` chunks of at most `n` items that hold `length` items with all but the last full: `k = ceil(length / n)`. */
  lemma CeilCount(length: nat, n: nat, k: nat)
    requires n >= 1 && (k - 1) * n < length <= k * n
    ensures k == (length + n - 1) / n
  {
    var q := (length + n - 1) / n;
    var r := (length + n - 1) % n;
    assert length + n - 1 == q * n + r && 0 <= r < n;
    if q < k {
      assert q <= k - 1;
      MulMono(q, k - 1, n);
      assert false;
    } else if q > k {
      assert k + 1 <= q;
      MulMono(k + 1, q, n);
      assert false;
    }
  }

  lemma MulMono(a: int, b: int, n: nat)
    requires a <= b
    ensures a * n <= b * n
  {
  }

  /** Chunks of 1 to `n` items, all but the last full, hold more than `n` per chunk before the last. */
  lemma {:induction false} FlattenLength<T>(chunks: seq<seq<T>>, n: nat)
    requires chunks != []
    requires forall i :: 0 <= i < |chunks| ==> 1 <= |chunks[i]| <= n
    requires forall i :: 0 <= i < |chunks| - 1 ==> |chunks[i]| == n
    ensures (|chunks| - 1) * n < |Flatten(chunks)| <= |chunks| * n
  {
    var front := Front(chunks);
    if front != [] {
      FlattenLength(front, n);
      assert |Flatten(front)| == |front| * n by {
        assert |front[|front| - 1]| == n;
        FullChunksLength(front, n);
      }
    }
  }

  lemma {:induction false} FullChunksLength<T>(chunks: seq<seq<T>>, n: nat)
    requires forall i :: 0 <= i < |chunks| ==> |chunks[i]| == n
    ensures |Flatten(chunks)| == |chunks| * n
  {
    if chunks != [] {
      FullChunksLength(Front(chunks), n);
      assert (|chunks| - 1) * n + n == |chunks| * n;
    }
  }

  /** Each chunk holds 1 to `n` items, and every chunk but the last exactly `n`. */
  predicate WellChunked<T>(chunks: seq<seq<T>>, n: nat) {
    (forall i :: 0 <= i < |chunks| ==> 1 <= |chunks[i]| <= n) &&
    (forall i :: 0 <= i < |chunks| - 1 ==> |chunks[i]| == n)
  }

  lemma WellChunkedSnoc<T>(chunks: seq<seq<T>>, c: seq<T>, n: nat)
    requires WellChunked(chunks, n) && 1 <= |c| <= n
    requires chunks != [] ==> |Last(chunks)| == n
    ensures WellChunked(chunks + [c], n)
  {
  }

  /** The number of chunks joining to `length` items, all but the last full, is `ceil(length / n)`. */
  lemma ChunkCount<T>(chunks: seq<seq<T>>, s: seq<T>, n: nat)
    requires n >= 1 && WellChunked(chunks, n) && Flatten(chunks) == s
    ensures |chunks| == (|s| + n - 1) / n
  {
    if chunks != [] {
      FlattenLength(chunks, n);
      CeilCount(|s|, n, |chunks|);
    } else {
      assert |s| == 0;
      CeilCount(0, n, 0);
    }
  }

  /**
   * chunked_iterable: `list(islice(it, n))` until it comes back empty.
   * Joined, the chunks give the input back; each holds between 1 and `n`
   * items and all but the last exactly `n`; there are `ceil(|s| / n)` of
   * them, none at all for an empty input or for `n == 0`.
   */
  method ChunkedIterable<T>(s: seq<T>, n: nat) returns (chunks: seq<seq<T>>)
    ensures Flatten(chunks) == (if n == 0 then [] else s)
    ensures forall i :: 0 <= i < |chunks| ==> 1 <= |chunks[i]| <= n
    ensures forall i :: 0 <= i < |chunks| - 1 ==> |chunks[i]| == n
    ensures chunks == [] <==> s == [] || n == 0
    ensures n >= 1 ==> |chunks| == (|s| + n - 1) / n
  {
    chunks := [];
    var pos := 0;
    while true
      invariant pos <= |s|
      invariant Flatten(chunks) == s[..pos]
      invariant WellChunked(chunks, n)
      invariant chunks != [] && |Last(chunks)| < n ==> pos == |s|
      invariant n == 0 ==> chunks == []
      decreases |s| - pos
    {
      var end := if pos + n <= |s| then pos + n else |s|;
      var chunk := s[pos..end];
      if chunk == [] {
        break;
      }
      FlattenSnoc(chunks, chunk);
      WellChunkedSnoc(chunks, chunk, n);
      assert s[..end] == s[..pos] + chunk;
      chunks := chunks + [chunk];
      pos := end;
    }
    assert pos == |s| || n == 0;
    assert s[..|s|] == s;
    if n >= 1 {
      ChunkCount(chunks, s, n);
    }
  }
}
