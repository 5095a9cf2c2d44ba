/** The rule-based sentence splitter of `generateEmbeddings`: a global match
    of the regular expression `[^.!?]+[.!?]+[\])'"]*` over the text, or the
    whole text as the only sentence when nothing matches.

    The expression is modelled as the scanner a backtracking engine runs: at a
    position holding a terminator no match can start, so the search moves one
    character on; at any other position the match takes the whole run of
    non-terminators, needs a terminator right after it, then takes the whole
    run of terminators and the whole run of closing characters. When the run
    of non-terminators reaches the end of the text, no later position can
    match either, so the search stops. */
module Sentences {

  predicate IsTerminator(c: char) {
    c == '.' || c == '!' || c == '?'
  }

  /** Any character the class `[^.!?]` accepts. */
  predicate IsText(c: char) {
    !IsTerminator(c)
  }

  /** The characters of the class `[\])'"]`. */
  predicate IsCloser(c: char) {
    c == ']' || c == ')' || c == '\'' || c == '"'
  }

  /** The end of the longest run of characters satisfying `p` from `i`. */
  function RunEnd(s: string, i: nat, p: char -> bool): (j: nat)
    requires i <= |s|
    ensures i <= j <= |s|
    ensures forall k :: i <= k < j ==> p(s[k])
    ensures j < |s| ==> !p(s[j])
    decreases |s| - i
  {
    if i == |s| || !p(s[i]) then i else RunEnd(s, i + 1, p)
  }

  /** The half-open range `[start, end)` of one match. */
  datatype Span = Span(start: nat, end: nat)

  /** `x` is non-terminators in `[0, a)`, terminators in `[a, b)` and closing
      characters in `[b, |x|)`, with both of the first two runs non-empty. */
  predicate ShapeAt(x: string, a: nat, b: nat) {
    && 0 < a < b <= |x|
    && (forall k :: 0 <= k < a ==> IsText(x[k]))
    && (forall k :: a <= k < b ==> IsTerminator(x[k]))
    && (forall k :: b <= k < |x| ==> IsCloser(x[k]))
  }

  /** `x` is a whole match of the sentence expression. */
  ghost predicate IsSentence(x: string) {
    exists a: nat, b: nat :: ShapeAt(x, a, b)
  }

  /** Spans within `[lo, hi)`, each non-empty, in left-to-right order and
      pairwise disjoint. */
  ghost predicate Ascending(spans: seq<Span>, lo: nat, hi: nat) {
    && (forall k :: 0 <= k < |spans| ==> lo <= spans[k].start < spans[k].end <= hi)
    && (forall j, k :: 0 <= j < k < |spans| ==> spans[j].end <= spans[k].start)
  }

  /** A match that the greedy runs cannot extend: the character after it is
      not a closing character, nor a terminator when the match ends in its
      run of terminators. */
  predicate EndsMaximally(s: string, sp: Span) {
    && 0 < sp.end <= |s|
    && (sp.end < |s| ==> !IsCloser(s[sp.end]))
    && (sp.end < |s| && IsTerminator(s[sp.end - 1]) ==> !IsTerminator(s[sp.end]))
  }

  /** The matches of a global search starting at position `i`. */
  function MatchesFrom(s: string, i: nat): (r: seq<Span>)
    requires i <= |s|
    ensures Ascending(r, i, |s|)
    ensures forall k :: 0 <= k < |r| ==> IsSentence(s[r[k].start..r[k].end])
    ensures forall k :: 0 <= k < |r| ==> EndsMaximally(s, r[k])
    decreases |s| - i
  {
    if i == |s| then []
    else if IsTerminator(s[i]) then MatchesFrom(s, i + 1)
    else
      var q := RunEnd(s, i, IsText);
      if q == |s| then []
      else
        var e := RunEnd(s, q, IsTerminator);
        var t := RunEnd(s, e, IsCloser);
        var rest := MatchesFrom(s, t);
        MatchShape(s, i, q, e, t);
        MatchEnd(s, i, q, e, t);
        ConsMatch(s, i, t, rest);
        [Span(i, t)] + rest
  }

  /** Runs of non-terminators `[i, q)`, terminators `[q, e)` and closing
      characters `[e, t)`, the first two non-empty, make one match. */
  lemma MatchShape(s: string, i: nat, q: nat, e: nat, t: nat)
    requires i < q < e <= t <= |s|
    requires forall k :: i <= k < q ==> IsText(s[k])
    requires forall k :: q <= k < e ==> IsTerminator(s[k])
    requires forall k :: e <= k < t ==> IsCloser(s[k])
    ensures IsSentence(s[i..t])
  {
    var x := s[i..t];
    assert forall k :: 0 <= k < |x| ==> x[k] == s[i + k];
    assert ShapeAt(x, q - i, e - i);
  }

  /** A match whose terminator run `[q, e)` and closing run `[e, t)` are
      both as long as they can be cannot be extended. */
  lemma MatchEnd(s: string, i: nat, q: nat, e: nat, t: nat)
    requires i < q < e <= t <= |s|
    requires forall k :: q <= k < e ==> IsTerminator(s[k])
    requires e < |s| ==> !IsTerminator(s[e])
    requires forall k :: e <= k < t ==> IsCloser(s[k])
    requires t < |s| ==> !IsCloser(s[t])
    ensures EndsMaximally(s, Span(i, t))
  {
    if t > e {
      assert IsCloser(s[t - 1]);
    }
  }

  /** A match followed by the matches of a search from its end. */
  lemma ConsMatch(s: string, i: nat, t: nat, rest: seq<Span>)
    requires i < t <= |s|
    requires IsSentence(s[i..t])
    requires Ascending(rest, t, |s|)
    requires forall k :: 0 <= k < |rest| ==> IsSentence(s[rest[k].start..rest[k].end])
    requires EndsMaximally(s, Span(i, t))
    requires forall k :: 0 <= k < |rest| ==> EndsMaximally(s, rest[k])
    ensures Ascending([Span(i, t)] + rest, i, |s|)
    ensures var r := [Span(i, t)] + rest;
      forall k :: 0 <= k < |r| ==> IsSentence(s[r[k].start..r[k].end])
    ensures var r := [Span(i, t)] + rest;
      forall k :: 0 <= k < |r| ==> EndsMaximally(s, r[k])
  {
    var r := [Span(i, t)] + rest;
    assert forall k :: 0 < k < |r| ==> r[k] == rest[k - 1];
  }

  /** Nothing that could belong to a sentence is skipped: every
      non-terminator at or after `i` with a terminator somewhere after it
      lies inside a match of the search from `i`. */
  lemma {:induction false} MatchesCover(s: string, i: nat, p: nat, j: nat)
    requires i <= p < j < |s|
    requires IsText(s[p]) && IsTerminator(s[j])
    ensures exists sp :: sp in MatchesFrom(s, i) && sp.start <= p < sp.end
    decreases |s| - i
  {
    if IsTerminator(s[i]) {
      MatchesCover(s, i + 1, p, j);
    } else {
      var q := RunEnd(s, i, IsText);
      assert q <= j;
      var e := RunEnd(s, q, IsTerminator);
      var t := RunEnd(s, e, IsCloser);
      assert MatchesFrom(s, i) == [Span(i, t)] + MatchesFrom(s, t);
      if p < t {
        assert Span(i, t) in MatchesFrom(s, i);
      } else {
        MatchesCover(s, t, p, j);
        var sp :| sp in MatchesFrom(s, t) && sp.start <= p < sp.end;
        assert sp in MatchesFrom(s, i);
      }
    }
  }

  /** The non-terminator before every sentence end after `i` belongs to a
      match; the terminator itself may not, when it follows the closing
      characters of a match (see `StrayTerminatorAfterCloser`). */
  lemma SentenceEndCovered(s: string, i: nat, k: nat)
    requires i < k && EndsSentenceAt(s, k)
    ensures exists sp :: sp in MatchesFrom(s, i) && sp.start <= k - 1 < sp.end
  {
    MatchesCover(s, i, k - 1, k);
  }

  /** In `A.).` the match is `A.)`; the final terminator follows a closing
      character, starts no match and belongs to no sentence. */
  lemma StrayTerminatorAfterCloser()
    ensures MatchesFrom("A.).", 0) == [Span(0, 3)]
    ensures EndsSentenceAt("A.).", 3)
  {
    var s := "A.).";
    assert RunEnd(s, 0, IsText) == 1;
    assert RunEnd(s, 1, IsTerminator) == 2;
    assert RunEnd(s, 2, IsCloser) == 3;
    assert MatchesFrom(s, 4) == [];
    assert MatchesFrom(s, 3) == [];
  }

  function Slice(s: string, sp: Span): string
    requires sp.start <= sp.end <= |s|
  {
    s[sp.start..sp.end]
  }

  /** The global match of the sentence expression, or `[value]` when it is
      null (nothing matched). */
  function Sentences(value: string): (r: seq<string>)
    ensures |r| >= 1
  {
    var m := MatchesFrom(value, 0);
    if m == [] then [value]
    else seq(|m|, k requires 0 <= k < |m| => Slice(value, m[k]))
  }

  /** Some position `k > i` ends a run of non-terminators with a terminator,
      which is where a match can complete. */
  ghost predicate HasSentenceEnd(s: string, i: nat) {
    exists k :: i < k && EndsSentenceAt(s, k)
  }

  /** A terminator at `k` right after a non-terminator. */
  predicate EndsSentenceAt(s: string, k: int) {
    0 < k < |s| && IsText(s[k - 1]) && IsTerminator(s[k])
  }

  /** A search from `i` finds nothing exactly when no terminator after `i`
      follows a non-terminator that is at or after `i`. */
  lemma {:induction false} NoMatchIff(s: string, i: nat)
    requires i <= |s|
    ensures MatchesFrom(s, i) == [] <==> !HasSentenceEnd(s, i)
    decreases |s| - i
  {
    if i == |s| {
    } else if IsTerminator(s[i]) {
      NoMatchIff(s, i + 1);
      if HasSentenceEnd(s, i) {
        var k :| i < k && EndsSentenceAt(s, k);
        assert k - 1 != i;
        assert HasSentenceEnd(s, i + 1);
      }
    } else {
      var q := RunEnd(s, i, IsText);
      if q == |s| {
        assert forall k :: i <= k < |s| ==> IsText(s[k]);
      } else {
        assert i < q && EndsSentenceAt(s, q);
        assert HasSentenceEnd(s, i);
      }
    }
  }

  /** When nothing matches, the text itself is the only sentence; this holds
      for the empty text in particular. */
  lemma SentencesFallback(value: string)
    requires !HasSentenceEnd(value, 0)
    ensures Sentences(value) == [value]
  {
    NoMatchIff(value, 0);
  }

  lemma EmptyTextIsOneSentence()
    ensures Sentences("") == [""]
  {
  }

  /** When something matches, the sentences are exactly the matched spans of
      the text, in order, disjoint, and each is a whole match of the
      expression: non-empty, with at least one terminator. */
  lemma SentencesAreMatches(value: string)
    requires HasSentenceEnd(value, 0)
    ensures var m := MatchesFrom(value, 0);
      && Ascending(m, 0, |value|)
      && |Sentences(value)| == |m|
      && forall k :: 0 <= k < |m| ==>
           && Sentences(value)[k] == value[m[k].start..m[k].end]
           && IsSentence(Sentences(value)[k])
           && |Sentences(value)[k]| > 0
           && exists j :: 0 <= j < |Sentences(value)[k]| && IsTerminator(Sentences(value)[k][j])
  {
    NoMatchIff(value, 0);
    var m := MatchesFrom(value, 0);
    var r := Sentences(value);
    forall k | 0 <= k < |m|
      ensures exists j :: 0 <= j < |r[k]| && IsTerminator(r[k][j])
    {
      assert IsSentence(value[m[k].start..m[k].end]);
      var a: nat, b: nat :| ShapeAt(r[k], a, b);
      assert IsTerminator(r[k][a]);
    }
  }

  /** A position inside a match is a terminator, a closing character, or
      lies before a terminator of the same match. */
  lemma CoveredPosition(s: string, sp: Span, k: nat)
    requires sp.start <= k < sp.end <= |s|
    requires IsSentence(s[sp.start..sp.end])
    ensures IsTerminator(s[k]) || IsCloser(s[k])
      || exists j :: k < j < sp.end && IsTerminator(s[j])
  {
    var x := s[sp.start..sp.end];
    var a: nat, b: nat :| ShapeAt(x, a, b);
    var off := k - sp.start;
    assert x[off] == s[k];
    assert x[a] == s[sp.start + a];
    if off < a {
      assert IsTerminator(s[sp.start + a]);
    } else if off < b {
      assert IsTerminator(x[off]);
    } else {
      assert IsCloser(x[off]);
    }
  }

  /** Text with no terminator from position `k` on, and not itself a closing
      character, belongs to no sentence: the tail after the last terminator
      run (and its closing characters) is dropped. */
  lemma TrailingTextDropped(s: string, k: nat)
    requires k < |s| && !IsCloser(s[k])
    requires forall j :: k <= j < |s| ==> !IsTerminator(s[j])
    ensures forall sp :: sp in MatchesFrom(s, 0) ==> !(sp.start <= k < sp.end)
  {
    var m := MatchesFrom(s, 0);
    forall sp | sp in m ensures !(sp.start <= k < sp.end) {
      var idx :| 0 <= idx < |m| && m[idx] == sp;
      if sp.start <= k < sp.end {
        CoveredPosition(s, sp, k);
      }
    }
  }
}
