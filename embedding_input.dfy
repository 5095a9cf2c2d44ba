/** The input normaliser of `generateEmbedding`: every two-character sequence
    backslash followed by `n` (an escaped newline left in the text) becomes a
    single space, scanning left to right as `replaceAll` does. */
module EmbeddingInput {
  import Chunking
  import Seqs

  function Normalise(s: string): (r: string)
    ensures |r| <= |s|
    decreases |s|
  {
    if |s| == 0 then ""
    else if |s| >= 2 && s[0] == '\\' && s[1] == 'n' then " " + Normalise(s[2..])
    else [s[0]] + Normalise(s[1..])
  }

  predicate EscapedNewlineAt(s: string, i: int) {
    0 <= i && i + 1 < |s| && s[i] == '\\' && s[i + 1] == 'n'
  }

  ghost predicate HasEscapedNewline(s: string) {
    exists i :: EscapedNewlineAt(s, i)
  }

  /** The number of non-overlapping escaped newlines `replaceAll` finds. */
  function EscapeCount(s: string): nat
    decreases |s|
  {
    if |s| == 0 then 0
    else if |s| >= 2 && s[0] == '\\' && s[1] == 'n' then 1 + EscapeCount(s[2..])
    else EscapeCount(s[1..])
  }

  /** Each replacement shortens the text by exactly one character. */
  lemma {:induction false} NormaliseLength(s: string)
    ensures |Normalise(s)| == |s| - EscapeCount(s)
    decreases |s|
  {
    if |s| >= 2 && s[0] == '\\' && s[1] == 'n' {
      NormaliseLength(s[2..]);
    } else if |s| > 0 {
      NormaliseLength(s[1..]);
    }
  }

  /** The first character of the result is `n` only if the input starts
      with an `n` that was kept. */
  lemma {:induction false} NormaliseHead(s: string)
    requires |Normalise(s)| > 0 && Normalise(s)[0] == 'n'
    ensures |s| > 0 && s[0] == 'n'
  {
  }

  /** No escaped newline is left in the result. */
  lemma {:induction false} NoEscapedNewlineLeft(s: string)
    ensures !HasEscapedNewline(Normalise(s))
    decreases |s|
  {
    var r := Normalise(s);
    if |s| == 0 {
    } else if |s| >= 2 && s[0] == '\\' && s[1] == 'n' {
      var t := Normalise(s[2..]);
      NoEscapedNewlineLeft(s[2..]);
      assert r == " " + t;
      forall i | 0 <= i ensures !EscapedNewlineAt(r, i) {
        if i > 0 {
          assert !EscapedNewlineAt(t, i - 1);
        }
      }
    } else {
      var t := Normalise(s[1..]);
      NoEscapedNewlineLeft(s[1..]);
      assert r == [s[0]] + t;
      forall i | 0 <= i ensures !EscapedNewlineAt(r, i) {
        if i > 0 {
          assert !EscapedNewlineAt(t, i - 1);
        } else if s[0] == '\\' && |t| > 0 && t[0] == 'n' {
          NormaliseHead(s[1..]);
        }
      }
    }
  }

  /** Text without escaped newlines passes through unchanged. */
  lemma {:induction false} NormaliseIdentity(s: string)
    requires !HasEscapedNewline(s)
    ensures Normalise(s) == s
    decreases |s|
  {
    if |s| > 0 {
      assert !EscapedNewlineAt(s, 0);
      assert !HasEscapedNewline(s[1..]) by {
        forall i | 0 <= i ensures !EscapedNewlineAt(s[1..], i) {
          assert !EscapedNewlineAt(s, i + 1);
        }
      }
      NormaliseIdentity(s[1..]);
    }
  }

  /** Normalising twice is normalising once. */
  lemma NormaliseIdempotent(s: string)
    ensures Normalise(Normalise(s)) == Normalise(s)
  {
    NoEscapedNewlineLeft(s);
    NormaliseIdentity(Normalise(s));
  }

  /** An escaped newline between two texts becomes one space between their
      normalised forms: no replacement straddles either side of it. */
  lemma {:induction false} NormaliseAround(x: string, y: string)
    ensures Normalise(x + "\\n" + y) == Normalise(x) + " " + Normalise(y)
    decreases |x|
  {
    if |x| == 0 {
      AroundEmpty(y);
    } else if |x| >= 2 && x[0] == '\\' && x[1] == 'n' {
      NormaliseAround(x[2..], y);
      AroundPair(x, y);
    } else {
      NormaliseAround(x[1..], y);
      AroundChar(x, y);
    }
  }

  /** The escaped newline at the very start. */
  lemma AroundEmpty(y: string)
    ensures Normalise("" + "\\n" + y) == "" + " " + Normalise(y)
  {
    var s := "" + "\\n" + y;
    assert s[0] == '\\' && s[1] == 'n' && s[2..] == y;
  }

  /** An escaped newline at the start of `x` is replaced whatever follows
      `x`. */
  lemma AroundPair(x: string, y: string)
    requires |x| >= 2 && x[0] == '\\' && x[1] == 'n'
    requires Normalise(x[2..] + "\\n" + y) == Normalise(x[2..]) + " " + Normalise(y)
    ensures Normalise(x + "\\n" + y) == Normalise(x) + " " + Normalise(y)
  {
    var s := x + "\\n" + y;
    var rest := x[2..] + "\\n" + y;
    Seqs.DropAppend(x, "\\n", y, 2);
    assert s[0] == '\\' && s[1] == 'n';
    var nx := Normalise(x[2..]);
    var ny := Normalise(y);
    assert Normalise(x) == " " + nx;
    calc {
      Normalise(s);
      " " + Normalise(rest);
      " " + (nx + " " + ny);
      { Seqs.ConsAppend(" ", nx, " " + ny); }
      " " + nx + " " + ny;
      Normalise(x) + " " + ny;
    }
  }

  /** A first character of `x` that does not start an escaped newline is
      kept whatever follows `x`: the newline after `x` starts with a
      backslash, not an `n`. */
  lemma AroundChar(x: string, y: string)
    requires |x| >= 1 && !(|x| >= 2 && x[0] == '\\' && x[1] == 'n')
    requires Normalise(x[1..] + "\\n" + y) == Normalise(x[1..]) + " " + Normalise(y)
    ensures Normalise(x + "\\n" + y) == Normalise(x) + " " + Normalise(y)
  {
    var s := x + "\\n" + y;
    var rest := x[1..] + "\\n" + y;
    assert s[0] == x[0] && s[1] == (if |x| >= 2 then x[1] else '\\');
    Seqs.DropAppend(x, "\\n", y, 1);
    var nx := Normalise(x[1..]);
    var ny := Normalise(y);
    assert Normalise(x) == [x[0]] + nx;
    calc {
      Normalise(s);
      [x[0]] + Normalise(rest);
      [x[0]] + (nx + " " + ny);
      { Seqs.ConsAppend([x[0]], nx, " " + ny); }
      [x[0]] + nx + " " + ny;
      Normalise(x) + " " + ny;
    }
  }

  /** Whether `Normalise` leaves a text as it is. */
  lemma NormaliseKeeps(s: string)
    ensures !HasEscapedNewline(s) ==> Normalise(s) == s
  {
    if !HasEscapedNewline(s) {
      NormaliseIdentity(s);
    }
  }

  /** `generateEmbedding(value)`: the opaque `embed` call on the normalised
      text; a text without escaped newlines is embedded as it is. */
  function GenerateEmbedding(value: string, embed: string -> Chunking.Vector): (r: Chunking.Vector)
    ensures !HasEscapedNewline(value) ==> r == embed(value)
  {
    NormaliseKeeps(value);
    embed(Normalise(value))
  }

  /** Escaped newlines make no difference to the vector: a text and its
      normalised form get the same embedding. */
  lemma GenerateEmbeddingIgnoresEscapes(value: string, embed: string -> Chunking.Vector)
    ensures GenerateEmbedding(Normalise(value), embed) == GenerateEmbedding(value, embed)
  {
    NormaliseIdempotent(value);
  }
}
