/** The recall query of `findRelevantContent`: the query text is expanded
    into a hypothetical answer (HyDE), that answer is embedded, and the
    stored chunks of the caller whose similarity with it exceeds 0.3 are
    returned, most similar first, at most ten of them.

    The hypothetical-answer generator and the embedding call are opaque
    functions; the similarity of a stored vector with the query vector is a
    given score (it stands for `1 - cosineDistance(stored, query)`). */
module Recall {
  import opened Seqs
  import opened Ranking
  import opened Schema
  import Chunking
  import EmbeddingInput

  const SimilarityFloor: real := 0.3

  const RecallLimit: nat := 10

  /** One selected row: `{ name: content, similarity }`. */
  datatype Candidate = Candidate(name: string, similarity: real)

  function Score(c: Candidate): real {
    c.similarity
  }

  /** The `WHERE` clause: above the floor and owned by the caller. */
  predicate Eligible(row: EmbeddingRow, userId: Id, score: EmbeddingRow -> real) {
    score(row) > SimilarityFloor && row.userId == userId
  }

  function ToCandidate(row: EmbeddingRow, score: EmbeddingRow -> real): Candidate {
    Candidate(row.content, score(row))
  }

  /** The selected rows that pass the `WHERE` clause, in table order. */
  function Candidates(rows: seq<EmbeddingRow>, userId: Id, score: EmbeddingRow -> real): (r: seq<Candidate>)
    ensures forall c :: c in r <==>
      exists row :: row in rows && Eligible(row, userId, score) && c == ToCandidate(row, score)
  {
    var kept := Filter((row: EmbeddingRow) => Eligible(row, userId, score), rows);
    var r := seq(|kept|, i requires 0 <= i < |kept| => ToCandidate(kept[i], score));
    forall row | row in kept ensures ToCandidate(row, score) in r {
      var i :| 0 <= i < |kept| && kept[i] == row;
      assert r[i] == ToCandidate(row, score);
    }
    forall c | c in r
      ensures exists row :: row in rows && Eligible(row, userId, score) && c == ToCandidate(row, score)
    {
      var i :| 0 <= i < |r| && r[i] == c;
      assert kept[i] in kept;
    }
    r
  }

  /** `WHERE similarity > 0.3 AND userId = $userId ORDER BY similarity DESC
      LIMIT 10`. */
  function RecallRows(rows: seq<EmbeddingRow>, userId: Id, score: EmbeddingRow -> real): (r: seq<Candidate>)
    ensures |r| <= RecallLimit
    ensures SortedDesc(r, Score)
    ensures multiset(r) <= multiset(Candidates(rows, userId, score))
  {
    TopOfSorted(SortDesc(Candidates(rows, userId, score), Score), RecallLimit, Score);
    Take(SortDesc(Candidates(rows, userId, score), Score), RecallLimit)
  }

  /** What recall promises: at most ten rows, only the caller's rows above
      the floor, each at most as often as it is eligible, most similar first,
      as many as there are eligible rows up to the limit, and every eligible
      row left out scores no higher than the last one returned. */
  lemma RecallContract(rows: seq<EmbeddingRow>, userId: Id, score: EmbeddingRow -> real)
    ensures var r := RecallRows(rows, userId, score);
      var all := Candidates(rows, userId, score);
      && |r| == (if |all| < RecallLimit then |all| else RecallLimit)
      && SortedDesc(r, Score)
      && multiset(r) <= multiset(all)
      && (forall c :: c in r ==>
            (c.similarity > SimilarityFloor
             && exists row :: row in rows && row.userId == userId && c == ToCandidate(row, score)))
      && (|r| > 0 ==> forall c :: c in multiset(all) - multiset(r) ==> c.similarity <= r[|r| - 1].similarity)
  {
    var all := Candidates(rows, userId, score);
    var sorted := SortDesc(all, Score);
    TopOfSorted(sorted, RecallLimit, Score);
    var r := RecallRows(rows, userId, score);
    assert |sorted| == |all| by {
      assert |multiset(sorted)| == |multiset(all)|;
    }
    forall c | c in r
      ensures c.similarity > SimilarityFloor
      ensures exists row :: row in rows && row.userId == userId && c == ToCandidate(row, score)
    {
      assert c in multiset(r);
      assert c in multiset(sorted);
      assert c in all;
    }
  }

  /** Other owners' rows make no difference: recall over the whole table is
      recall over the caller's rows alone. */
  lemma RecallIsOwnerScoped(rows: seq<EmbeddingRow>, userId: Id, score: EmbeddingRow -> real)
    ensures RecallRows(rows, userId, score)
      == RecallRows(Filter((row: EmbeddingRow) => row.userId == userId, rows), userId, score)
  {
    var own := (row: EmbeddingRow) => row.userId == userId;
    var keep := (row: EmbeddingRow) => Eligible(row, userId, score);
    FilterFilter(keep, own, keep, rows);
  }

  /** With no row above the floor the result is empty. */
  lemma NothingAboveFloor(rows: seq<EmbeddingRow>, userId: Id, score: EmbeddingRow -> real)
    requires forall row :: row in rows ==> score(row) <= SimilarityFloor
    ensures RecallRows(rows, userId, score) == []
  {
    var all := Candidates(rows, userId, score);
    assert forall c :: c !in all;
    assert multiset(all) == multiset{};
    assert all == [];
    assert |multiset(SortDesc(all, Score))| == 0;
  }

  /** `findRelevantContent(userQuery, userId)`: HyDE expansion, the
      normalised embedding of the hypothetical answer, then recall. */
  function FindRelevantContent(
    userQuery: string, userId: Id, rows: seq<EmbeddingRow>,
    hypotheticalAnswer: string -> string, embed: string -> Chunking.Vector,
    similarity: (Chunking.Vector, Chunking.Vector) -> real): (r: seq<Candidate>)
    ensures |r| <= RecallLimit
    ensures SortedDesc(r, Score)
  {
    var queryVector := EmbeddingInput.GenerateEmbedding(hypotheticalAnswer(userQuery), embed);
    RecallRows(rows, userId, (row: EmbeddingRow) => similarity(row.embedding, queryVector))
  }

  /** Every row `findRelevantContent` returns is a chunk of the caller whose
      stored vector is more than 0.3 similar to the embedded hypothetical
      answer, the rows come most similar first, and there are at most ten. */
  lemma FindRelevantContentContract(
    userQuery: string, userId: Id, rows: seq<EmbeddingRow>,
    hypotheticalAnswer: string -> string, embed: string -> Chunking.Vector,
    similarity: (Chunking.Vector, Chunking.Vector) -> real)
    ensures var r := FindRelevantContent(userQuery, userId, rows, hypotheticalAnswer, embed, similarity);
      var q := embed(EmbeddingInput.Normalise(hypotheticalAnswer(userQuery)));
      && |r| <= RecallLimit
      && SortedDesc(r, Score)
      && forall c :: c in r ==>
           (c.similarity > SimilarityFloor
            && exists row :: row in rows && row.userId == userId
                 && c == Candidate(row.content, similarity(row.embedding, q)))
  {
    var q := embed(EmbeddingInput.Normalise(hypotheticalAnswer(userQuery)));
    RecallContract(rows, userId, (row: EmbeddingRow) => similarity(row.embedding, q));
  }
}
