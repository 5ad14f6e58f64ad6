/** The chunker of `chunk_text`: a window of `chunkSize` characters slides
    over the document, each window starting `chunkSize - overlap` characters
    after the previous one, and each window becomes a chunk with the next
    sequential id (counting from 1). */
module Chunking {

  /** A chunk as `chunk_text` builds it: `{"id": ..., "text": ...}`. */
  datatype Chunk = Chunk(id: int, text: string)

  /** The default parameters of `chunk_text`. */
  const DefaultChunkSize: int := 500
  const DefaultOverlap: int := 50

  function Min(a: int, b: int): int {
    if a <= b then a else b
  }

  /** Parameters for which the loop of `chunk_text` advances: the window is
      non-empty and every step moves the start forward. A negative overlap
      is accepted by the code and leaves gaps between chunks. */
  predicate ValidParams(chunkSize: int, overlap: int) {
    0 < chunkSize && overlap < chunkSize
  }

  /** How far the start advances per iteration. */
  function Stride(chunkSize: int, overlap: int): (s: nat)
    requires ValidParams(chunkSize, overlap)
    ensures 0 < s
  {
    chunkSize - overlap
  }

  /** Start offset of the k-th window (0-based). */
  function Start(k: nat, chunkSize: int, overlap: int): nat
    requires ValidParams(chunkSize, overlap)
  {
    k * Stride(chunkSize, overlap)
  }

  /** End offset (exclusive) of the k-th window, clipped to the text as
      Python slicing clips it. */
  function End(n: nat, k: nat, chunkSize: int, overlap: int): nat
    requires ValidParams(chunkSize, overlap)
  {
    Min(Start(k, chunkSize, overlap) + chunkSize, n)
  }

  /** The number of chunks of an `n`-character text: ceil(n / stride). */
  function ChunkCount(n: nat, chunkSize: int, overlap: int): nat
    requires ValidParams(chunkSize, overlap)
  {
    (n + Stride(chunkSize, overlap) - 1) / Stride(chunkSize, overlap)
  }

  /** The k-th window lies inside the text exactly when k is below the
      chunk count: this is the loop guard `start < len(text)` after k
      iterations, so the loop runs ChunkCount times. */
  lemma ChunkCountSpec(n: nat, chunkSize: int, overlap: int, k: nat)
    requires ValidParams(chunkSize, overlap)
    ensures k < ChunkCount(n, chunkSize, overlap) <==> Start(k, chunkSize, overlap) < n
  {
    var s := Stride(chunkSize, overlap);
    var q := (n + s - 1) / s;
    var r := (n + s - 1) % s;
    assert n + s - 1 == q * s + r && 0 <= r < s;
    if k < q {
      MulMonotone(k + 1, q, s);
      assert (k + 1) * s == k * s + s;
    } else {
      MulMonotone(q + 1, k + 1, s);
      assert (q + 1) * s == q * s + s;
      assert (k + 1) * s == k * s + s;
    }
  }

  lemma MulMonotone(a: nat, b: nat, s: nat)
    requires a <= b
    ensures a * s <= b * s
  {
  }

  lemma StartStep(k: nat, chunkSize: int, overlap: int)
    requires ValidParams(chunkSize, overlap)
    ensures Start(k + 1, chunkSize, overlap) == Start(k, chunkSize, overlap) + Stride(chunkSize, overlap)
  {
    var s := Stride(chunkSize, overlap);
    assert (k + 1) * s == k * s + s;
  }

  /** The k-th chunk of a text: id k + 1 and the clipped window at Start(k). */
  function ChunkAt(text: string, chunkSize: int, overlap: int, k: nat): (c: Chunk)
    requires ValidParams(chunkSize, overlap)
    requires k < ChunkCount(|text|, chunkSize, overlap)
  {
    ChunkCountSpec(|text|, chunkSize, overlap, k);
    Chunk(k + 1, text[Start(k, chunkSize, overlap)..End(|text|, k, chunkSize, overlap)])
  }

  /** The chunks of a text, in closed form: one per window start below the
      text length, in order of their starts. */
  function Chunked(text: string, chunkSize: int, overlap: int): (cs: seq<Chunk>)
    requires ValidParams(chunkSize, overlap)
  {
    seq(ChunkCount(|text|, chunkSize, overlap),
        k requires 0 <= k < ChunkCount(|text|, chunkSize, overlap) => ChunkAt(text, chunkSize, overlap, k))
  }

  /** `chunk_text(text, chunk_size, overlap)`. */
  method ChunkText(text: string, chunkSize: int, overlap: int) returns (chunks: seq<Chunk>)
    requires ValidParams(chunkSize, overlap)
    ensures chunks == Chunked(text, chunkSize, overlap)
  {
    chunks := [];
    var start := 0;
    var chunkId := 1;
    while start < |text|
      invariant chunkId == |chunks| + 1
      invariant start == Start(|chunks|, chunkSize, overlap)
      invariant |chunks| <= ChunkCount(|text|, chunkSize, overlap)
      invariant forall k :: 0 <= k < |chunks| ==> chunks[k] == ChunkAt(text, chunkSize, overlap, k)
      decreases |text| - start
    {
      ChunkCountSpec(|text|, chunkSize, overlap, |chunks|);
      StartStep(|chunks|, chunkSize, overlap);
      var end := start + chunkSize;
      var chunk := text[start..Min(end, |text|)];
      chunks := chunks + [Chunk(chunkId, chunk)];
      start := end - overlap;
      chunkId := chunkId + 1;
    }
    ChunkCountSpec(|text|, chunkSize, overlap, |chunks|);
  }

  /** Chunking an empty text yields no chunks. */
  lemma ChunkEmptyText(chunkSize: int, overlap: int)
    requires ValidParams(chunkSize, overlap)
    ensures Chunked("", chunkSize, overlap) == []
  {
    ChunkCountSpec(0, chunkSize, overlap, 0);
  }

  /** The ids are exactly 1..n in generation order, and every chunk is a
      non-empty slice of at most `chunkSize` characters taken from the text
      at its window start. */
  lemma ChunkShape(text: string, chunkSize: int, overlap: int, k: nat)
    requires ValidParams(chunkSize, overlap)
    requires k < |Chunked(text, chunkSize, overlap)|
    ensures Chunked(text, chunkSize, overlap)[k].id == k + 1
    ensures 0 < |Chunked(text, chunkSize, overlap)[k].text| <= chunkSize
    ensures Start(k, chunkSize, overlap) + |Chunked(text, chunkSize, overlap)[k].text| <= |text|
    ensures Chunked(text, chunkSize, overlap)[k].text
         == text[Start(k, chunkSize, overlap)..Start(k, chunkSize, overlap) + |Chunked(text, chunkSize, overlap)[k].text|]
  {
    ChunkCountSpec(|text|, chunkSize, overlap, k);
  }

  /** A window that reaches the end of the text is not always the last one:
      when it is followed by another, the next chunk ends where it ends, so
      the next chunk adds no character not already chunked (for a text of
      940 characters and the defaults, [900,940) repeats the tail of
      [450,940)). */
  lemma ChunkAfterEndIsRedundant(text: string, chunkSize: int, overlap: int, k: nat)
    requires 0 <= overlap < chunkSize
    requires k + 1 < |Chunked(text, chunkSize, overlap)|
    requires |text| <= Start(k, chunkSize, overlap) + chunkSize
    ensures Start(k, chunkSize, overlap) < Start(k + 1, chunkSize, overlap)
    ensures Start(k + 1, chunkSize, overlap) + |Chunked(text, chunkSize, overlap)[k + 1].text|
         == Start(k, chunkSize, overlap) + |Chunked(text, chunkSize, overlap)[k].text| == |text|
  {
    ChunkCountSpec(|text|, chunkSize, overlap, k + 1);
    StartStep(k, chunkSize, overlap);
  }

  /** A chunk has the full `chunkSize` characters exactly when its window
      fits inside the text. */
  lemma ChunkFullWhenWindowFits(text: string, chunkSize: int, overlap: int, k: nat)
    requires ValidParams(chunkSize, overlap)
    requires k < |Chunked(text, chunkSize, overlap)|
    ensures |Chunked(text, chunkSize, overlap)[k].text| == chunkSize
        <==> Start(k, chunkSize, overlap) + chunkSize <= |text|
  {
    ChunkCountSpec(|text|, chunkSize, overlap, k);
  }

  /** Every character position of the text lies inside a chunk: position p
      lies in the chunk whose window starts at the last stride boundary at
      or before p. */
  lemma ChunksCover(text: string, chunkSize: int, overlap: int, p: nat)
    requires 0 <= overlap < chunkSize
    requires p < |text|
    ensures p / Stride(chunkSize, overlap) < |Chunked(text, chunkSize, overlap)|
    ensures var k := p / Stride(chunkSize, overlap);
            Start(k, chunkSize, overlap) <= p < Start(k, chunkSize, overlap) + |Chunked(text, chunkSize, overlap)[k].text|
            && Chunked(text, chunkSize, overlap)[k].text[p - Start(k, chunkSize, overlap)] == text[p]
  {
    var s := Stride(chunkSize, overlap);
    var k := p / s;
    assert p == k * s + p % s;
    ChunkCountSpec(|text|, chunkSize, overlap, k);
  }

  /** Python's `s[k:]` for k >= 0. */
  function Drop(s: string, k: nat): string {
    s[Min(k, |s|)..]
  }

  /** The texts of the chunks with the first `overlap` characters of every
      chunk after the first removed, concatenated in order. */
  function Reassembled(cs: seq<Chunk>, overlap: nat): string {
    if cs == [] then "" else cs[0].text + DropOverlaps(cs[1..], overlap)
  }

  function DropOverlaps(cs: seq<Chunk>, overlap: nat): string {
    if cs == [] then "" else Drop(cs[0].text, overlap) + DropOverlaps(cs[1..], overlap)
  }

  /** With a non-negative overlap, the chunks with their overlaps removed
      concatenate back to the original text. */
  lemma ChunksReassemble(text: string, chunkSize: int, overlap: int)
    requires 0 <= overlap < chunkSize
    ensures Reassembled(Chunked(text, chunkSize, overlap), overlap) == text
  {
    var cs := Chunked(text, chunkSize, overlap);
    if |text| == 0 {
      ChunkEmptyText(chunkSize, overlap);
    } else {
      ChunkCountSpec(|text|, chunkSize, overlap, 0);
      assert 0 < |cs|;
      assert cs[1..] == cs[1..][0..];
      DropOverlapsSuffix(text, chunkSize, overlap, 1);
      assert cs[0].text == text[..End(|text|, 0, chunkSize, overlap)];
    }
  }

  /** The suffix of the chunks from index i on, overlaps removed, is the
      text from the end of chunk i - 1 on. */
  lemma {:induction false} DropOverlapsSuffix(text: string, chunkSize: int, overlap: int, i: nat)
    requires 0 <= overlap < chunkSize
    requires 1 <= i <= |Chunked(text, chunkSize, overlap)|
    ensures DropOverlaps(Chunked(text, chunkSize, overlap)[i..], overlap)
         == text[End(|text|, i - 1, chunkSize, overlap)..]
    decreases |Chunked(text, chunkSize, overlap)| - i
  {
    var cs := Chunked(text, chunkSize, overlap);
    var n := |text|;
    ChunkCountSpec(n, chunkSize, overlap, i - 1);
    ChunkCountSpec(n, chunkSize, overlap, i);
    StartStep(i - 1, chunkSize, overlap);
    if i == |cs| {
      assert End(n, i - 1, chunkSize, overlap) == n;
    } else {
      DropOverlapsSuffix(text, chunkSize, overlap, i + 1);
      assert cs[i..][1..] == cs[i + 1..];
      var e0 := End(n, i - 1, chunkSize, overlap);
      var e1 := End(n, i, chunkSize, overlap);
      assert Drop(cs[i].text, overlap) == text[e0..e1];
      assert text[e0..e1] + text[e1..] == text[e0..];
    }
  }

  /** The scenario of a 1000-character text with the default parameters:
      three chunks, covering [0,500), [450,950) and [900,1000). */
  lemma ChunkDefaultsOnThousand(text: string)
    requires |text| == 1000
    ensures |Chunked(text, DefaultChunkSize, DefaultOverlap)| == 3
    ensures Chunked(text, DefaultChunkSize, DefaultOverlap)
         == [Chunk(1, text[0..500]), Chunk(2, text[450..950]), Chunk(3, text[900..1000])]
  {
  }

  /** A 940-character text with the default parameters: the third window
      [900,940) lies inside the second, [450,940). */
  lemma ChunkDefaultsOnNineHundredForty(text: string)
    requires |text| == 940
    ensures Chunked(text, DefaultChunkSize, DefaultOverlap)
         == [Chunk(1, text[0..500]), Chunk(2, text[450..940]), Chunk(3, text[900..940])]
  {
  }

  /** The value of `start` in `chunk_text` after k iterations, by the
      loop's own update `start = end - overlap` with `end = start +
      chunk_size`, for any parameters. */
  function LoopStart(k: nat, chunkSize: int, overlap: int): int {
    if k == 0 then 0 else LoopStart(k - 1, chunkSize, overlap) + chunkSize - overlap
  }

  /** For valid parameters the loop's start after k iterations is the
      window start Start(k) of the closed form. */
  lemma {:induction false} LoopStartIsStart(k: nat, chunkSize: int, overlap: int)
    requires ValidParams(chunkSize, overlap)
    ensures LoopStart(k, chunkSize, overlap) == Start(k, chunkSize, overlap)
  {
    if k > 0 {
      LoopStartIsStart(k - 1, chunkSize, overlap);
      StartStep(k - 1, chunkSize, overlap);
    }
  }

  /** Without a valid configuration the loop of `chunk_text` does not end on
      a non-empty text: when `overlap >= chunkSize` the start never moves
      forward, so after any number k of iterations the guard
      `start < len(text)` still holds. */
  lemma {:induction false} ChunkDivergesOnBadOverlap(n: nat, chunkSize: int, overlap: int, k: nat)
    requires overlap >= chunkSize
    requires 0 < n
    ensures LoopStart(k, chunkSize, overlap) <= 0 < n
  {
    if k > 0 {
      ChunkDivergesOnBadOverlap(n, chunkSize, overlap, k - 1);
    }
  }
}
