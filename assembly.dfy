/** The assembly loop of `rag_pipeline`: the retrieved chunks, ranked from
    1 in retrieval order, become the grounding context handed to the answer
    model and the list of human-readable source labels. */
module Assembly {
  import opened Chunking
  import opened Decimal

  /** The first line of the context block of the chunk of rank `rank`:
      `[Source <rank>]` and a line break. */
  function BlockHeader(rank: nat): string {
    "[Source " + NatToDecimal(rank) + "]\n"
  }

  /** `f"[Source {i}]\n{chunk['text']}\n\n"`. */
  function ContextBlock(rank: nat, c: Chunk): string {
    BlockHeader(rank) + c.text + "\n\n"
  }

  /** `f"Source {i} – Chunk {chunk['id']}"`; the dash is an en dash, U+2013. */
  function SourceLabel(rank: nat, id: int): string {
    "Source " + NatToDecimal(rank) + " \U{2013} Chunk " + IntToDecimal(id)
  }

  /** The context for a ranked list: the blocks of ranks 1..|cs| in order. */
  function ContextOf(cs: seq<Chunk>): string {
    if cs == [] then "" else ContextOf(cs[..|cs| - 1]) + ContextBlock(|cs|, cs[|cs| - 1])
  }

  /** The source labels for a ranked list, one per chunk in rank order. */
  function SourcesOf(cs: seq<Chunk>): seq<string> {
    seq(|cs|, j requires 0 <= j < |cs| => SourceLabel(j + 1, cs[j].id))
  }

  /** The loop `for i, chunk in enumerate(retrieved, start=1)` growing
      `context` and `sources`. */
  method AssembleContext(retrieved: seq<Chunk>) returns (context: string, sources: seq<string>)
    ensures context == ContextOf(retrieved)
    ensures sources == SourcesOf(retrieved)
  {
    context := "";
    sources := [];
    for i := 0 to |retrieved|
      invariant context == ContextOf(retrieved[..i])
      invariant sources == SourcesOf(retrieved[..i])
    {
      var rank := i + 1;
      var chunk := retrieved[i];
      ContextOfSnoc(retrieved, i);
      SourcesOfSnoc(retrieved, i);
      context := context + ContextBlock(rank, chunk);
      sources := sources + [SourceLabel(rank, chunk.id)];
    }
    assert retrieved[..|retrieved|] == retrieved;
  }

  lemma ContextOfSnoc(cs: seq<Chunk>, i: nat)
    requires i < |cs|
    ensures ContextOf(cs[..i + 1]) == ContextOf(cs[..i]) + ContextBlock(i + 1, cs[i])
  {
    assert cs[..i + 1][..i] == cs[..i];
  }

  lemma SourcesOfSnoc(cs: seq<Chunk>, i: nat)
    requires i < |cs|
    ensures SourcesOf(cs[..i + 1]) == SourcesOf(cs[..i]) + [SourceLabel(i + 1, cs[i].id)]
  {
  }

  /** The context of a prefix of the ranked list is a prefix of the context. */
  lemma {:induction false} ContextPrefix(cs: seq<Chunk>, i: nat)
    requires i <= |cs|
    ensures ContextOf(cs[..i]) <= ContextOf(cs)
    decreases |cs|
  {
    if i < |cs| {
      var init := cs[..|cs| - 1];
      ContextPrefix(init, i);
      assert init[..i] == cs[..i];
    } else {
      assert cs[..i] == cs;
    }
  }

  /** The block of the chunk of rank j + 1 sits in the context right after
      the blocks of the chunks ranked before it, and the chunk's text sits
      right after that block's `[Source j+1]` line. */
  lemma ContextBlockAt(cs: seq<Chunk>, j: nat)
    requires j < |cs|
    ensures var o := |ContextOf(cs[..j])|;
            o + |ContextBlock(j + 1, cs[j])| <= |ContextOf(cs)|
            && ContextOf(cs)[o..o + |ContextBlock(j + 1, cs[j])|] == ContextBlock(j + 1, cs[j])
            && ContextOf(cs)[o + |BlockHeader(j + 1)|..o + |BlockHeader(j + 1)| + |cs[j].text|] == cs[j].text
  {
    ContextPrefix(cs, j + 1);
    var pre := cs[..j + 1];
    assert pre[..|pre| - 1] == cs[..j];
    assert ContextOf(pre) == ContextOf(cs[..j]) + ContextBlock(j + 1, cs[j]);
    var o := |ContextOf(cs[..j])|;
    var whole := ContextOf(cs);
    assert whole[..|ContextOf(pre)|] == ContextOf(pre);
    assert whole[o..o + |ContextBlock(j + 1, cs[j])|] == ContextOf(pre)[o..];
    var h := |BlockHeader(j + 1)|;
    assert ContextBlock(j + 1, cs[j])[h..h + |cs[j].text|] == cs[j].text;
  }

  /** A source label determines both the rank and the chunk id it names. */
  lemma SourceLabelInjective(r1: nat, id1: int, r2: nat, id2: int)
    requires SourceLabel(r1, id1) == SourceLabel(r2, id2)
    ensures r1 == r2 && id1 == id2
  {
    var sep := " \U{2013} Chunk ";
    var a1, a2 := NatToDecimal(r1), NatToDecimal(r2);
    var x1, x2 := sep + IntToDecimal(id1), sep + IntToDecimal(id2);
    LabelTail(r1, id1);
    LabelTail(r2, id2);
    DigitRunUnique(a1, x1, a2, x2);
    assert IntToDecimal(id1) == x1[|sep|..];
    assert IntToDecimal(id2) == x2[|sep|..];
    DecimalRoundTrip(r1);
    DecimalRoundTrip(r2);
    IntToDecimalInjective(id1, id2);
  }

  lemma LabelTail(rank: nat, id: int)
    ensures SourceLabel(rank, id)[7..] == NatToDecimal(rank) + (" \U{2013} Chunk " + IntToDecimal(id))
  {
    var a, x := NatToDecimal(rank), " \U{2013} Chunk " + IntToDecimal(id);
    var p := "Source ";
    calc {
      SourceLabel(rank, id);
      p + a + " \U{2013} Chunk " + IntToDecimal(id);
      { assert p + a + " \U{2013} Chunk " + IntToDecimal(id) == p + (a + x); }
      p + (a + x);
    }
  }

  /** No two entries of the sources list are equal: each names its own rank. */
  lemma SourcesDistinct(cs: seq<Chunk>)
    ensures |SourcesOf(cs)| == |cs|
    ensures forall a, b :: 0 <= a < b < |cs| ==> SourcesOf(cs)[a] != SourcesOf(cs)[b]
  {
    forall a, b | 0 <= a < b < |cs|
      ensures SourcesOf(cs)[a] != SourcesOf(cs)[b]
    {
      if SourcesOf(cs)[a] == SourcesOf(cs)[b] {
        SourceLabelInjective(a + 1, cs[a].id, b + 1, cs[b].id);
      }
    }
  }
}
