/** `retrieve_chunks`: the positions reported by the vector search are
    turned back into the stored chunks, in the order the search reported
    them. */
module Retrieval {
  import opened Chunking

  /** The element Python's `xs[i]` selects, for -|xs| <= i < |xs|: a
      negative position counts from the end. */
  function PyPosition(len: nat, i: int): (p: nat)
    requires -(len as int) <= i < len
    ensures p < len
    ensures 0 <= i ==> p == i
    ensures i < 0 ==> p + (-i) == len
  {
    if i < 0 then len + i else i
  }

  /** `retrieve_chunks(indices)` as written: `[chunks[i] for i in indices]`.
      Any position outside -|chunks| .. |chunks| - 1 makes Python raise
      `IndexError`. */
  function RetrieveChunks(chunks: seq<Chunk>, indices: seq<int>): (r: seq<Chunk>)
    requires forall j :: 0 <= j < |indices| ==> -|chunks| <= indices[j] < |chunks|
    ensures |r| == |indices|
    ensures forall j :: 0 <= j < |indices| && 0 <= indices[j] ==> r[j] == chunks[indices[j]]
    ensures forall j :: 0 <= j < |indices| && indices[j] < 0 ==> r[j] == chunks[|chunks| + indices[j]]
  {
    seq(|indices|, j requires 0 <= j < |indices| => chunks[PyPosition(|chunks|, indices[j])])
  }

  /** Retrieval distributes over concatenation of the position lists. */
  lemma RetrieveChunksAppend(chunks: seq<Chunk>, a: seq<int>, b: seq<int>)
    requires forall j :: 0 <= j < |a| ==> -|chunks| <= a[j] < |chunks|
    requires forall j :: 0 <= j < |b| ==> -|chunks| <= b[j] < |chunks|
    ensures forall j :: 0 <= j < |a + b| ==> -|chunks| <= (a + b)[j] < |chunks|
    ensures RetrieveChunks(chunks, a + b) == RetrieveChunks(chunks, a) + RetrieveChunks(chunks, b)
  {
    var r := RetrieveChunks(chunks, a + b);
    var ra := RetrieveChunks(chunks, a);
    var rb := RetrieveChunks(chunks, b);
    assert forall j :: 0 <= j < |a| ==> (a + b)[j] == a[j];
    assert forall j :: |a| <= j < |a + b| ==> (a + b)[j] == b[j - |a|];
    assert forall j :: 0 <= j < |r| ==> r[j] == (ra + rb)[j];
  }

  /** Retrieving every stored position in order gives back the stored chunks. */
  lemma RetrieveAllPositions(chunks: seq<Chunk>)
    ensures RetrieveChunks(chunks, seq(|chunks|, j => j)) == chunks
  {
  }

  /** The chunks that survive dropping FAISS's -1 filler: every position is
      either -1 (no neighbour) or a stored position. */
  predicate SearchPositions(indices: seq<int>, size: nat) {
    forall j :: 0 <= j < |indices| ==> -1 <= indices[j] < size
  }

  /** The positions of `indices` that name a neighbour, in order. */
  function Hits(indices: seq<int>): (h: seq<int>)
    ensures |h| <= |indices|
    ensures forall j :: 0 <= j < |h| ==> 0 <= h[j]
  {
    if indices == [] then []
    else if indices[0] < 0 then Hits(indices[1..])
    else [indices[0]] + Hits(indices[1..])
  }

  /** Retrieval with the filler positions dropped: the chunks at the hit
      positions, in the order the search reported them. */
  function RetrieveHits(chunks: seq<Chunk>, indices: seq<int>): (r: seq<Chunk>)
    requires SearchPositions(indices, |chunks|)
    ensures |r| == |Hits(indices)|
    ensures forall j :: 0 <= j < |r| ==> Hits(indices)[j] < |chunks| && r[j] == chunks[Hits(indices)[j]]
  {
    forall j | 0 <= j < |Hits(indices)| ensures Hits(indices)[j] < |chunks| {
      HitsBelow(indices, |chunks|, j);
    }
    seq(|Hits(indices)|, j requires 0 <= j < |Hits(indices)| => chunks[Hits(indices)[j]])
  }

  /** Without filler positions, retrieval with and without dropping agree:
      the corrected retrieval is the code's retrieval on every search result
      that reports as many neighbours as asked for. */
  lemma {:induction false} RetrieveHitsAgrees(chunks: seq<Chunk>, indices: seq<int>)
    requires forall j :: 0 <= j < |indices| ==> 0 <= indices[j] < |chunks|
    ensures Hits(indices) == indices
    ensures RetrieveHits(chunks, indices) == RetrieveChunks(chunks, indices)
  {
    HitsOfNonNegative(indices);
  }

  lemma {:induction false} HitsOfNonNegative(indices: seq<int>)
    requires forall j :: 0 <= j < |indices| ==> 0 <= indices[j]
    ensures Hits(indices) == indices
  {
    if indices != [] {
      HitsOfNonNegative(indices[1..]);
    }
  }

  /** When the search returns distinct positions (as a nearest-neighbour
      search over distinct stored vectors does) and the stored chunks have
      distinct ids, the corrected retrieval never returns one chunk twice. */
  lemma {:induction false} RetrieveHitsDistinct(chunks: seq<Chunk>, indices: seq<int>)
    requires SearchPositions(indices, |chunks|)
    requires DistinctHits(indices)
    requires forall a, b :: 0 <= a < b < |chunks| ==> chunks[a].id != chunks[b].id
    ensures forall a, b :: 0 <= a < b < |RetrieveHits(chunks, indices)|
              ==> RetrieveHits(chunks, indices)[a].id != RetrieveHits(chunks, indices)[b].id
  {
    HitsDistinct(indices);
    var h := Hits(indices);
    forall a, b | 0 <= a < b < |h|
      ensures 0 <= h[a] < |chunks| && 0 <= h[b] < |chunks| && chunks[h[a]].id != chunks[h[b]].id
    {
      HitsBelow(indices, |chunks|, a);
      HitsBelow(indices, |chunks|, b);
    }
  }

  /** The positions a search reports never repeat a stored position. */
  predicate DistinctHits(indices: seq<int>) {
    forall a, b :: 0 <= a < b < |indices| && 0 <= indices[a] ==> indices[a] != indices[b]
  }

  lemma {:induction false} HitsDistinct(indices: seq<int>)
    requires DistinctHits(indices)
    ensures forall a, b :: 0 <= a < b < |Hits(indices)| ==> Hits(indices)[a] != Hits(indices)[b]
  {
    if indices != [] {
      var t := indices[1..];
      assert DistinctHits(t) by {
        forall a, b | 0 <= a < b < |t| && 0 <= t[a] ensures t[a] != t[b] {
          assert t[a] == indices[a + 1] && t[b] == indices[b + 1];
        }
      }
      HitsDistinct(t);
      var ht := Hits(t);
      if 0 <= indices[0] {
        var h := Hits(indices);
        assert h == [indices[0]] + ht;
        forall a, b | 0 <= a < b < |h| ensures h[a] != h[b] {
          if a == 0 {
            var k := HitOrigin(t, b - 1);
            assert indices[k + 1] == h[b];
          } else {
            assert h[a] == ht[a - 1] && h[b] == ht[b - 1];
          }
        }
      } else {
        assert Hits(indices) == ht;
      }
    }
  }

  /** Every hit is one of the reported positions. */
  lemma {:induction false} HitOrigin(indices: seq<int>, j: nat) returns (k: nat)
    requires j < |Hits(indices)|
    ensures k < |indices| && indices[k] == Hits(indices)[j]
  {
    var t := indices[1..];
    if indices[0] < 0 {
      assert Hits(indices) == Hits(t);
      var k' := HitOrigin(t, j);
      k := k' + 1;
    } else if j == 0 {
      k := 0;
    } else {
      assert Hits(indices) == [indices[0]] + Hits(t);
      var k' := HitOrigin(t, j - 1);
      k := k' + 1;
    }
  }

  /** Every hit of a search over `size` stored vectors is a stored position. */
  lemma HitsBelow(indices: seq<int>, size: nat, j: nat)
    requires SearchPositions(indices, size)
    requires j < |Hits(indices)|
    ensures Hits(indices)[j] < size
  {
    var k := HitOrigin(indices, j);
  }

  /** The search pads with -1 when asked for more neighbours than are
      stored (three asked, one stored): the code then reads `chunks[-1]`,
      the last chunk, so the one stored chunk is returned three times. */
  lemma PaddedSearchRepeatsLastChunk(c: Chunk)
    ensures RetrieveChunks([c], [0, -1, -1]) == [c, c, c]
  {
  }

  /** Dropping the filler returns the stored chunk once. */
  lemma PaddedSearchDropped(c: Chunk)
    ensures RetrieveHits([c], [0, -1, -1]) == [c]
  {
    assert Hits([0, -1, -1]) == [0] by {
      assert [0, -1, -1][1..] == [-1, -1];
      assert [-1, -1][1..] == [-1];
      assert [-1][1..] == [];
    }
  }
}
