/** Writing the inbox notices of an announcement in chunks, one for every student of the audience. */
module Inbox {

  const CHUNK := 500

  function Joined<N>(batches: seq<seq<N>>): seq<N> {
    if batches == [] then [] else Joined(batches[..|batches| - 1]) + batches[|batches| - 1]
  }

  /** All batches are full, except that the last may hold less, but not nothing. */
  ghost predicate Chunked<N>(batches: seq<seq<N>>) {
    && (forall i | 0 <= i < |batches| :: 0 < |batches[i]| <= 500)
    && (forall i | 0 <= i < |batches| - 1 :: |batches[i]| == 500)
  }

  lemma JoinedGrows<N>(batches: seq<seq<N>>, batch: seq<N>)
    ensures Joined(batches + [batch]) == Joined(batches) + batch
  {
    assert (batches + [batch])[..|batches|] == batches;
  }

  /** Every notice is written once, in order, in chunks that are full up to the last. */
  method QueueInbox<N>(notices: seq<N>) returns (written: seq<seq<N>>)
    ensures Joined(written) == notices && Chunked(written)
  {
    written := [];
    var chunk: seq<N> := [];
    for i := 0 to |notices|
      invariant Joined(written) + chunk == notices[..i]
      invariant |chunk| < CHUNK
      invariant forall j | 0 <= j < |written| :: |written[j]| == CHUNK
    {
      chunk := chunk + [notices[i]];
      if |chunk| >= CHUNK {
        JoinedGrows(written, chunk);
        written := written + [chunk];
        chunk := [];
      }
    }
    if chunk != [] {
      JoinedGrows(written, chunk);
      written := written + [chunk];
    }
  }

  /** There is only one way to cut the notices so. */
  lemma {:induction false} ChunksAreDetermined<N>(a: seq<seq<N>>, b: seq<seq<N>>)
    requires Joined(a) == Joined(b) && Chunked(a) && Chunked(b)
    ensures a == b
    decreases |a|
  {
    JoinedLength(a);
    JoinedLength(b);
    if a != [] {
      var n := |a| - 1;
      assert |a| == |b|;
      JoinedLength(a[..n]);
      JoinedLength(b[..n]);
      assert Joined(a)[..|Joined(a[..n])|] == Joined(a[..n]);
      assert Joined(b)[..|Joined(b[..n])|] == Joined(b[..n]);
      assert Joined(a)[|Joined(a[..n])|..] == a[n];
      assert Joined(b)[|Joined(b[..n])|..] == b[n];
      ChunksAreDetermined(a[..n], b[..n]);
      assert a == a[..n] + [a[n]] && b == b[..n] + [b[n]];
    }
  }

  /** n full chunks, or n - 1 and a last one. */
  lemma {:induction false} JoinedLength<N>(batches: seq<seq<N>>)
    requires Chunked(batches)
    ensures batches == [] ==> |Joined(batches)| == 0
    ensures batches != [] ==> |Joined(batches)| == CHUNK * (|batches| - 1) + |batches[|batches| - 1]|
  {
    if |batches| <= 1 {
    } else {
      JoinedLength(batches[..|batches| - 1]);
    }
  }
}
