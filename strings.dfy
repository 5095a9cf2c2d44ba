/** String helpers shared by the model: JavaScript's `includes`, `join(" ")`
    and the decimal rendering of a number in a template literal. */
module Strings {

  predicate IsPrefix(pre: string, s: string) {
    |pre| <= |s| && s[..|pre|] == pre
  }

  /** `sub` occurs in `s` starting at index `i`. */
  predicate OccursAt(s: string, sub: string, i: int) {
    0 <= i && i + |sub| <= |s| && s[i..i + |sub|] == sub
  }

  /** `s.includes(sub)`. */
  function Includes(s: string, sub: string): (r: bool)
    ensures r <==> exists i :: OccursAt(s, sub, i)
    decreases |s|
  {
    if IsPrefix(sub, s) then
      assert OccursAt(s, sub, 0);
      true
    else if |s| == 0 then
      false
    else
      var rest := Includes(s[1..], sub);
      assert rest ==> exists i :: OccursAt(s, sub, i) by {
        if rest {
          var j :| OccursAt(s[1..], sub, j);
          assert s[j + 1..j + 1 + |sub|] == s[1..][j..j + |sub|];
          assert OccursAt(s, sub, j + 1);
        }
      }
      assert (exists i :: OccursAt(s, sub, i)) ==> rest by {
        if exists i :: OccursAt(s, sub, i) {
          var i :| OccursAt(s, sub, i);
          assert i != 0;
          assert s[1..][i - 1..i - 1 + |sub|] == s[i..i + |sub|];
          assert OccursAt(s[1..], sub, i - 1);
        }
      }
      rest
  }

  /** `xs.join(" ")`, which is also what repeated `acc += " " + x` builds. */
  function JoinSpace(xs: seq<string>): string
    decreases |xs|
  {
    if |xs| == 0 then ""
    else if |xs| == 1 then xs[0]
    else JoinSpace(xs[..|xs| - 1]) + " " + xs[|xs| - 1]
  }

  /** Joining two or more strings puts one space before the last. */
  lemma JoinSpaceSnoc(xs: seq<string>)
    requires |xs| >= 2
    ensures JoinSpace(xs) == JoinSpace(xs[..|xs| - 1]) + " " + xs[|xs| - 1]
  {
  }

  /** Joining a slice of two or more strings puts one space before its
      last string. */
  lemma JoinSliceSnoc(xs: seq<string>, lo: nat, hi: nat)
    requires lo + 1 < hi <= |xs|
    ensures JoinSpace(xs[lo..hi]) == JoinSpace(xs[lo..hi - 1]) + " " + xs[hi - 1]
  {
    var x := xs[lo..hi];
    JoinSpaceSnoc(x);
    assert x[..|x| - 1] == xs[lo..hi - 1];
  }

  /** Joining splits at any inner position into two joins and one separator. */
  lemma {:induction false} JoinSpaceSplit(xs: seq<string>, k: nat)
    requires 0 < k < |xs|
    ensures JoinSpace(xs) == JoinSpace(xs[..k]) + " " + JoinSpace(xs[k..])
    decreases |xs|
  {
    var n := |xs|;
    if k == n - 1 {
      assert xs[k..] == [xs[n - 1]];
    } else {
      assert xs[..n - 1][..k] == xs[..k];
      assert xs[..n - 1][k..] == xs[k..n - 1];
      JoinSpaceSplit(xs[..n - 1], k);
      assert xs[k..][..|xs[k..]| - 1] == xs[k..n - 1];
    }
  }

  function DigitChar(d: nat): (c: char)
    requires d < 10
    ensures '0' <= c <= '9'
  {
    ('0' as int + d) as char
  }

  function DigitValue(c: char): nat
    requires '0' <= c <= '9'
  {
    (c as int - '0' as int) as nat
  }

  /** The decimal text of `n`, as `${n}` renders a non-negative integer. */
  function NatToString(n: nat): (r: string)
    ensures |r| >= 1
    ensures forall k :: 0 <= k < |r| ==> '0' <= r[k] <= '9'
    ensures r[0] == '0' <==> n == 0
    decreases n
  {
    if n < 10 then [DigitChar(n)] else NatToString(n / 10) + [DigitChar(n % 10)]
  }

  function DecimalValue(s: string): nat
    requires forall k :: 0 <= k < |s| ==> '0' <= s[k] <= '9'
    decreases |s|
  {
    if |s| == 0 then 0 else 10 * DecimalValue(s[..|s| - 1]) + DigitValue(s[|s| - 1])
  }

  /** The rendering is faithful: reading the digits back gives the number. */
  lemma {:induction false} NatToStringRoundTrip(n: nat)
    ensures DecimalValue(NatToString(n)) == n
    decreases n
  {
    if n >= 10 {
      var r := NatToString(n);
      assert r[..|r| - 1] == NatToString(n / 10);
      assert DigitValue(r[|r| - 1]) == n % 10;
      NatToStringRoundTrip(n / 10);
      assert n == 10 * (n / 10) + n % 10;
    }
  }
}
