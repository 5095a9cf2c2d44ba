/** The semantic grouping step of `generateEmbeddings`: sentences are
    embedded, each sentence joins the current chunk when its similarity with
    the previous sentence's vector exceeds 0.5 and starts a new chunk
    otherwise, and the final chunks are paired with their own vectors.

    The embedding capability is a function from texts to vectors, and the
    cosine similarity a function from two vectors to a score; neither is
    computed here. */
module Chunking {
  import opened Strings
  import opened Seqs
  import Sentences

  type Vector = seq<real>

  type Similarity = (Vector, Vector) -> real

  /** The grouping threshold of the loop. */
  const GroupingThreshold: real := 0.5

  /** One `{ content, embedding }` element of the result. */
  datatype ChunkEmbedding = ChunkEmbedding(content: string, embedding: Vector)

  /** Sentence `i` opens a chunk: it is the first, or it is not similar
      enough to the sentence right before it. */
  predicate StartsChunk(emb: seq<Vector>, sim: Similarity, i: nat)
    requires i < |emb|
  {
    i == 0 || !(sim(emb[i - 1], emb[i]) > GroupingThreshold)
  }

  /** Strictly increasing indices below `n`, the first of them 0. */
  ghost predicate ValidStarts(st: seq<nat>, n: nat) {
    && (|st| > 0 ==> st[0] == 0)
    && (forall j :: 0 <= j < |st| ==> st[j] < n)
    && (forall j, k :: 0 <= j < k < |st| ==> st[j] < st[k])
  }

  /** The indices, among the first `n` sentences, at which a chunk starts. */
  function ChunkStarts(emb: seq<Vector>, sim: Similarity, n: nat): (st: seq<nat>)
    requires n <= |emb|
    ensures ValidStarts(st, n)
    ensures |st| <= n
    ensures n > 0 ==> |st| > 0
    ensures forall i: nat :: i in st <==> i < n && StartsChunk(emb, sim, i)
    decreases n
  {
    if n == 0 then []
    else
      var prev := ChunkStarts(emb, sim, n - 1);
      if StartsChunk(emb, sim, n - 1) then prev + [n - 1] else prev
  }

  /** Where chunk `j` ends: where the next one starts, or after the last
      sentence. */
  function ChunkEnd(st: seq<nat>, j: nat, n: nat): nat
    requires j < |st|
  {
    if j + 1 < |st| then st[j + 1] else n
  }

  /** The chunks that the starts `st` cut out of the first `n` sentences:
      each one the sentences from its start to the next start, joined with
      single spaces. */
  function Segments(ss: seq<string>, st: seq<nat>, n: nat): (r: seq<string>)
    requires n <= |ss| && ValidStarts(st, n)
    ensures |r| == |st|
  {
    seq(|st|, j requires 0 <= j < |st| => JoinSpace(ss[st[j]..ChunkEnd(st, j, n)]))
  }

  /** Adding a sentence that continues the last chunk. */
  lemma SegmentsExtendLast(ss: seq<string>, st: seq<nat>, i: nat)
    requires i < |ss| && |st| > 0 && ValidStarts(st, i)
    ensures ValidStarts(st, i + 1)
    ensures var old_ := Segments(ss, st, i);
      Segments(ss, st, i + 1) == old_[..|st| - 1] + [old_[|st| - 1] + " " + ss[i]]
  {
    var m := |st|;
    var a := Segments(ss, st, i);
    var b := Segments(ss, st, i + 1);
    var c := a[..m - 1] + [a[m - 1] + " " + ss[i]];
    forall j | 0 <= j < m - 1 ensures b[j] == c[j] {
      assert ChunkEnd(st, j, i + 1) == st[j + 1] == ChunkEnd(st, j, i);
    }
    LastSegmentGrows(ss, st, i);
    assert b[m - 1] == c[m - 1];
    assert b == c;
  }

  /** The last segment takes the new sentence after one more space. */
  lemma LastSegmentGrows(ss: seq<string>, st: seq<nat>, i: nat)
    requires i < |ss| && |st| > 0 && ValidStarts(st, i)
    ensures ValidStarts(st, i + 1)
    ensures Segments(ss, st, i + 1)[|st| - 1] == Segments(ss, st, i)[|st| - 1] + " " + ss[i]
  {
    var m := |st|;
    assert st[m - 1] < i;
    JoinSliceSnoc(ss, st[m - 1], i + 1);
  }

  lemma AppendStart(st: seq<nat>, i: nat)
    requires ValidStarts(st, i) && (|st| > 0 || i == 0)
    ensures ValidStarts(st + [i], i + 1)
  {
    var st' := st + [i];
    forall j, k | 0 <= j < k < |st'| ensures st'[j] < st'[k] {
      if k < |st| {
        assert st'[j] == st[j] && st'[k] == st[k];
      } else {
        assert st'[j] == st[j];
      }
    }
  }

  lemma ChunkEndAppend(st: seq<nat>, i: nat, j: nat)
    requires j < |st|
    ensures ChunkEnd(st + [i], j, i + 1) == ChunkEnd(st, j, i)
  {
    if j + 1 < |st| {
      assert (st + [i])[j + 1] == st[j + 1];
    }
  }

  /** Adding a sentence that opens a new chunk. */
  lemma SegmentsExtendNew(ss: seq<string>, st: seq<nat>, i: nat)
    requires i < |ss| && ValidStarts(st, i) && (|st| > 0 || i == 0)
    ensures ValidStarts(st + [i], i + 1)
    ensures Segments(ss, st + [i], i + 1) == Segments(ss, st, i) + [ss[i]]
  {
    AppendStart(st, i);
    var st' := st + [i];
    var a := Segments(ss, st, i);
    var b := Segments(ss, st', i + 1);
    forall j | 0 <= j < |st| ensures b[j] == a[j] {
      ChunkEndAppend(st, i, j);
      assert st'[j] == st[j];
    }
    assert ChunkEnd(st', |st|, i + 1) == i + 1;
    assert ss[i..i + 1] == [ss[i]];
    assert JoinSpace([ss[i]]) == ss[i];
    assert b[|st|] == ss[i];
    assert b == a + [ss[i]];
  }

  /** The loop of `generateEmbeddings`. The comparison is always against the
      vector of the sentence just before, whichever chunk it belongs to. */
  method GroupSentences(sentences: seq<string>, emb: seq<Vector>, sim: Similarity)
    returns (chunks: seq<string>)
    requires |sentences| >= 1 && |emb| == |sentences|
    ensures chunks == Segments(sentences, ChunkStarts(emb, sim, |sentences|), |sentences|)
    ensures 1 <= |chunks| <= |sentences|
    ensures JoinSpace(chunks) == JoinSpace(sentences)
  {
    chunks := [];
    var currentChunk := sentences[0];
    var currentChunkEmbedding := emb[0];
    assert sentences[0..1] == [sentences[0]];
    for i := 1 to |sentences|
      invariant currentChunkEmbedding == emb[i - 1]
      invariant chunks + [currentChunk] == Segments(sentences, ChunkStarts(emb, sim, i), i)
    {
      var nextSentence := sentences[i];
      var nextEmbedding := emb[i];
      var similarity := sim(currentChunkEmbedding, nextEmbedding);
      ghost var st := ChunkStarts(emb, sim, i);
      if similarity > GroupingThreshold {
        SegmentsExtendLast(sentences, st, i);
        currentChunk := currentChunk + " " + nextSentence;
        currentChunkEmbedding := nextEmbedding;
      } else {
        SegmentsExtendNew(sentences, st, i);
        chunks := chunks + [currentChunk];
        currentChunk := nextSentence;
        currentChunkEmbedding := nextEmbedding;
      }
    }
    chunks := chunks + [currentChunk];
    SegmentsJoin(sentences, ChunkStarts(emb, sim, |sentences|), |sentences|);
    assert sentences[..|sentences|] == sentences;
  }

  /** Grouping drops nothing and keeps the order: joining the chunks gives
      the same text as joining the sentences. */
  lemma {:induction false} SegmentsJoin(ss: seq<string>, st: seq<nat>, n: nat)
    requires 0 < n <= |ss| && |st| > 0 && ValidStarts(st, n)
    ensures JoinSpace(Segments(ss, st, n)) == JoinSpace(ss[..n])
    decreases |st|
  {
    var m := |st|;
    var r := Segments(ss, st, n);
    if m == 1 {
      assert r == [JoinSpace(ss[0..n])];
      assert ss[0..n] == ss[..n];
    } else {
      var p := st[m - 1];
      var pre := st[..m - 1];
      assert ValidStarts(pre, p);
      var left := Segments(ss, pre, p);
      forall j | 0 <= j < m - 1 ensures r[j] == left[j] {
        assert ChunkEnd(pre, j, p) == ChunkEnd(st, j, n);
      }
      assert r[..m - 1] == left;
      assert r[m - 1] == JoinSpace(ss[p..n]);
      SegmentsJoin(ss, pre, p);
      JoinSpaceSplit(ss[..n], p);
      assert ss[..n][..p] == ss[..p] && ss[..n][p..] == ss[p..n];
    }
  }

  /** `finalVectors.map((e, i) => ({ content: chunks[i], embedding: e }))`,
      where the capability returns one vector per chunk. */
  function Pair(chunks: seq<string>, vectors: seq<Vector>): (r: seq<ChunkEmbedding>)
    requires |vectors| == |chunks|
    ensures |r| == |chunks|
  {
    seq(|chunks|, i requires 0 <= i < |chunks| => ChunkEmbedding(chunks[i], vectors[i]))
  }

  function Contents(r: seq<ChunkEmbedding>): seq<string> {
    seq(|r|, i requires 0 <= i < |r| => r[i].content)
  }

  function Vectors(r: seq<ChunkEmbedding>): seq<Vector> {
    seq(|r|, i requires 0 <= i < |r| => r[i].embedding)
  }

  /** Pairing loses nothing: the contents are the chunks and the vectors are
      the capability's vectors, each at its own index. */
  lemma PairUnzips(chunks: seq<string>, vectors: seq<Vector>)
    requires |vectors| == |chunks|
    ensures Contents(Pair(chunks, vectors)) == chunks
    ensures Vectors(Pair(chunks, vectors)) == vectors
  {
  }

  /** The capability returns one vector per input text, in input order. */
  ghost predicate OneVectorPerText(embedMany: seq<string> -> seq<Vector>) {
    forall xs :: |embedMany(xs)| == |xs|
  }

  /** The chunks of `value` paired with their vectors: what
      `generateEmbeddings(value)` resolves to. */
  function EmbeddedChunks(value: string, embedMany: seq<string> -> seq<Vector>, sim: Similarity): (r: seq<ChunkEmbedding>)
    requires OneVectorPerText(embedMany)
    ensures 1 <= |r| <= |Sentences.Sentences(value)|
    ensures JoinSpace(Contents(r)) == JoinSpace(Sentences.Sentences(value))
    ensures Vectors(r) == embedMany(Contents(r))
  {
    var ss := Sentences.Sentences(value);
    var st := ChunkStarts(embedMany(ss), sim, |ss|);
    var chunks := Segments(ss, st, |ss|);
    SegmentsJoin(ss, st, |ss|);
    assert ss[..|ss|] == ss;
    PairUnzips(chunks, embedMany(chunks));
    Pair(chunks, embedMany(chunks))
  }

  /** `generateEmbeddings(value)` without its progress events. */
  method GenerateEmbeddings(value: string, embedMany: seq<string> -> seq<Vector>, sim: Similarity)
    returns (result: seq<ChunkEmbedding>)
    requires OneVectorPerText(embedMany)
    ensures result == EmbeddedChunks(value, embedMany, sim)
    ensures 1 <= |result| <= |Sentences.Sentences(value)|
    ensures JoinSpace(Contents(result)) == JoinSpace(Sentences.Sentences(value))
  {
    var sentences := Sentences.Sentences(value);
    var sentenceEmbeddings := embedMany(sentences);
    var chunks := GroupSentences(sentences, sentenceEmbeddings, sim);
    var finalVectors := embedMany(chunks);
    result := Pair(chunks, finalVectors);
    PairUnzips(chunks, finalVectors);
  }
}
