/**
 * Sequence facts shared by the crawlers: duplicate-freedom, Python's
 * "append unless already present" loop, and sums of sleep durations.
 */
module Seqs {

  predicate NoDup<T(==)>(s: seq<T>) {
    forall i, j :: 0 <= i < j < |s| ==> s[i] != s[j]
  }

  /**
   * The elements of `s` at the positions where they occur for the first time,
   * in order: position `k` is kept exactly when `s[k]` is not in `s[..k]`.
   */
  function FirstOccurrences<T(==)>(s: seq<T>): seq<T>
    decreases |s|
  {
    if |s| == 0 then []
    else
      var n := |s| - 1;
      FirstOccurrences(s[..n]) + (if s[n] in s[..n] then [] else [s[n]])
  }

  /**
   * The loop `for x in s: if x not in out: out.append(x)`: it keeps the first
   * occurrence of each element, lists each element of `s` once and nothing else.
   */
  function Dedupe<T(==,!new)>(s: seq<T>): (r: seq<T>)
    ensures r == FirstOccurrences(s)
    ensures forall y :: y in r <==> y in s
    ensures NoDup(r)
    decreases |s|
  {
    if |s| == 0 then []
    else
      var n := |s| - 1;
      var d := Dedupe(s[..n]);
      assert s == s[..n] + [s[n]];
      if s[n] in d then d
      else
        AppendKeepsNoDup(d, s[n]);
        d + [s[n]]
  }

  lemma AppendKeepsNoDup<T>(d: seq<T>, x: T)
    requires NoDup(d) && x !in d
    ensures NoDup(d + [x])
  {
    var r := d + [x];
    forall i, j | 0 <= i < j < |r|
      ensures r[i] != r[j]
    {
      assert r[i] == d[i];
    }
  }

  /** A sequence without repeats comes out of the loop unchanged. */
  lemma {:induction false} DedupeOfDistinct<T(!new)>(s: seq<T>)
    requires NoDup(s)
    ensures Dedupe(s) == s
    decreases |s|
  {
    if |s| > 0 {
      var n := |s| - 1;
      assert NoDup(s[..n]);
      DedupeOfDistinct(s[..n]);
      assert s[n] !in s[..n];
      assert s == s[..n] + [s[n]];
    }
  }

  /** Running the loop twice gives what running it once gives. */
  lemma DedupeIdempotent<T(!new)>(s: seq<T>)
    ensures Dedupe(Dedupe(s)) == Dedupe(s)
  {
    DedupeOfDistinct(Dedupe(s));
  }

  /** The sum of a sequence of durations. */
  function Total(xs: seq<nat>): nat {
    if |xs| == 0 then 0 else xs[0] + Total(xs[1..])
  }

  lemma {:induction false} TotalAppend(a: seq<nat>, b: seq<nat>)
    ensures Total(a + b) == Total(a) + Total(b)
  {
    if |a| > 0 {
      assert (a + b)[1..] == a[1..] + b;
      TotalAppend(a[1..], b);
    } else {
      assert a + b == b;
    }
  }

  lemma {:induction false} TotalBound(xs: seq<nat>, m: nat)
    requires forall k :: 0 <= k < |xs| ==> xs[k] <= m
    ensures Total(xs) <= |xs| * m
  {
    if |xs| > 0 {
      TotalBound(xs[1..], m);
    }
  }

  /** `a` is `b` with some elements left out. */
  predicate Subsequence(a: seq<nat>, b: seq<nat>)
    decreases |b|
  {
    |a| == 0 || (|b| > 0 && ((a[0] == b[0] && Subsequence(a[1..], b[1..])) || Subsequence(a, b[1..])))
  }

  lemma {:induction false} SubsequenceTotal(a: seq<nat>, b: seq<nat>)
    requires Subsequence(a, b)
    decreases |b|
    ensures Total(a) <= Total(b)
  {
    if |a| > 0 {
      if a[0] == b[0] && Subsequence(a[1..], b[1..]) {
        SubsequenceTotal(a[1..], b[1..]);
      } else {
        SubsequenceTotal(a, b[1..]);
      }
    }
  }
}
