/** Sequence helpers shared by the sample window and the BPM history. */
module Seqs {

  function Min(a: nat, b: nat): nat {
    if a <= b then a else b
  }

  /** The bounded-tail policy both buffers of the monitor follow: when the
      sequence is longer than `n`, keep only its last `n` elements (Python's
      `s[-n:]` guarded by `len(s) > n`); otherwise leave it as it is. */
  function Last<T>(s: seq<T>, n: nat): (r: seq<T>)
    ensures |r| == Min(|s|, n)
    ensures forall i :: 0 <= i < |r| ==> r[i] == s[|s| - |r| + i]
  {
    if |s| > n then s[|s| - n..] else s
  }

  /** Trimming, appending more and trimming again keeps the same elements as
      appending everything first and trimming once: the bounded tail never
      depends on when the trims happened. */
  lemma LastOfLastAppend<T>(a: seq<T>, b: seq<T>, n: nat)
    ensures Last(Last(a, n) + b, n) == Last(a + b, n)
  {
    if |a| > n {
      var ab := a + b;
      var t := ab[|a| - n..];
      assert Last(a, n) + b == t;
      if |b| > 0 {
        assert t[|b|..] == ab[|ab| - n..];
      }
    }
  }

  /** `LastOfLastAppend` as a step: a bounded tail taken after `first` and
      again after `rest` is the bounded tail of everything. */
  lemma LastInTwoSteps<T>(start: seq<T>, first: seq<T>, rest: seq<T>, middle: seq<T>, final: seq<T>, n: nat)
    requires middle == Last(start + first, n)
    requires final == Last(middle + rest, n)
    ensures final == Last(start + (first + rest), n)
  {
    assert start + first + rest == start + (first + rest);
    LastOfLastAppend(start + first, rest, n);
  }

  /** A sequence already within the bound is left untouched. */
  lemma LastOfShort<T>(s: seq<T>, n: nat)
    requires |s| <= n
    ensures Last(s, n) == s
  {
  }

  /** Sum of a sequence of natural numbers (raw sensor intensities). */
  function Sum(s: seq<nat>): nat
  {
    if |s| == 0 then 0 else Sum(s[..|s| - 1]) + s[|s| - 1]
  }

  /** Sum of a sequence of reals (BPM estimates). */
  function SumReal(s: seq<real>): real
  {
    if |s| == 0 then 0.0 else SumReal(s[..|s| - 1]) + s[|s| - 1]
  }

  /** A sequence of `n` copies of `c` sums to `n * c`. */
  lemma {:induction false} SumConstant(c: nat, n: nat)
    ensures Sum(seq(n, _ => c)) == n * c
  {
    if n > 0 {
      var s := seq(n, _ => c);
      assert s[..n - 1] == seq(n - 1, _ => c);
      SumConstant(c, n - 1);
    }
  }

  /** Every term between `lo` and `hi` bounds the sum between `|s| * lo` and `|s| * hi`. */
  lemma {:induction false} SumRealBounds(s: seq<real>, lo: real, hi: real)
    requires forall i :: 0 <= i < |s| ==> lo <= s[i] <= hi
    ensures (|s| as real) * lo <= SumReal(s) <= (|s| as real) * hi
  {
    if |s| > 0 {
      SumRealBounds(s[..|s| - 1], lo, hi);
    }
  }
}
