/** Cutting a sequence of survivors into chunks. */
module Chunks {
  import opened Sequences

  /** Full chunks of `n`, then the remainder; a single empty chunk when there is nothing. */
  function Chunked<T>(s: seq<T>, n: nat): seq<seq<T>>
    requires n > 0
    decreases |s|
  {
    if |s| <= n then [s] else [s[..n]] + Chunked(s[n..], n)
  }

  function Flatten<T>(chunks: seq<seq<T>>): seq<T> {
    if chunks == [] then [] else chunks[0] + Flatten(chunks[1..])
  }

  /** The chunks hold everything, in order. */
  lemma {:induction false} ChunksConcatenate<T>(s: seq<T>, n: nat)
    requires n > 0
    ensures Flatten(Chunked(s, n)) == s
    decreases |s|
  {
    if |s| <= n {
      assert Flatten([s]) == s + Flatten([]);
    } else {
      ChunksConcatenate(s[n..], n);
      assert ([s[..n]] + Chunked(s[n..], n))[1..] == Chunked(s[n..], n);
      assert s[..n] + s[n..] == s;
    }
  }

  /** All chunks but the last hold exactly `n`, the last at most `n`, and only an only chunk is empty. */
  lemma {:induction false} ChunkSizes<T>(s: seq<T>, n: nat)
    requires n > 0
    ensures Chunked(s, n) != []
    ensures forall i :: 0 <= i < |Chunked(s, n)| - 1 ==> |Chunked(s, n)[i]| == n
    ensures |Chunked(s, n)[|Chunked(s, n)| - 1]| <= n
    ensures s != [] ==> |Chunked(s, n)[|Chunked(s, n)| - 1]| > 0
    decreases |s|
  {
    if |s| > n {
      ChunkSizes(s[n..], n);
      var rest := Chunked(s[n..], n);
      assert forall i :: 1 <= i <= |rest| ==> Chunked(s, n)[i] == rest[i - 1];
    }
  }

  /** There are max(1, ceil(k / n)) chunks for k survivors. */
  lemma {:induction false} ChunkCount<T>(s: seq<T>, n: nat)
    requires n > 0
    ensures var count := |Chunked(s, n)|;
      if s == [] then count == 1 else count >= 1 && (count - 1) * n < |s| <= count * n
    decreases |s|
  {
    if |s| > n {
      ChunkCount(s[n..], n);
      var count := |Chunked(s, n)|;
      assert count - 1 == |Chunked(s[n..], n)|;
      assert count * n == (count - 1) * n + n && (count - 1) * n == (count - 2) * n + n;
    }
  }

  /** What is left to cut once some chunk has gone out: nothing from nothing. */
  function ChunksLeft<T>(s: seq<T>, n: nat, yieldedAny: bool): seq<seq<T>>
    requires n > 0
  {
    if s == [] && yieldedAny then [] else Chunked(s, n)
  }

  lemma ChunksLeftSplit<T>(s: seq<T>, n: nat, yieldedAny: bool)
    requires n > 0 && |s| >= n
    ensures ChunksLeft(s, n, yieldedAny) == [s[..n]] + ChunksLeft(s[n..], n, true)
  {
    if |s| == n {
      assert s[..n] == s && s[n..] == [];
    }
  }
}
