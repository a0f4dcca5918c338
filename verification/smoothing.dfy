/** The BPM smoothing of the run loop: a short history of valid estimates
    whose arithmetic mean is published (sender.py, `bpm_values`). */
module Smoothing {
  import opened Seqs

  /** Number of valid estimates the mean is taken over. */
  const HistorySize: nat := 4

  /** Accepting one valid estimate: append it, then keep the last four. */
  function Accept(history: seq<real>, bpm: real): (r: seq<real>)
    ensures |r| == Min(|history| + 1, HistorySize)
    ensures |r| > 0 && r[|r| - 1] == bpm
    ensures forall i :: 0 <= i < |r| ==> r[i] == (history + [bpm])[|history| + 1 - |r| + i]
  {
    Last(history + [bpm], HistorySize)
  }

  /** Accepting a run of valid estimates, oldest first. */
  function AcceptAll(history: seq<real>, bpms: seq<real>): seq<real>
    decreases |bpms|
  {
    if |bpms| == 0 then history else AcceptAll(Accept(history, bpms[0]), bpms[1..])
  }

  /** After any run of valid estimates the history is the last (at most) four
      of everything accepted, in order. */
  lemma {:induction false} AcceptAllIsLastFour(history: seq<real>, bpms: seq<real>)
    requires |history| <= HistorySize
    ensures AcceptAll(history, bpms) == Last(history + bpms, HistorySize)
    decreases |bpms|
  {
    if |bpms| == 0 {
      assert history + bpms == history;
      LastOfShort(history, HistorySize);
    } else {
      var h1 := Accept(history, bpms[0]);
      AcceptAllIsLastFour(h1, bpms[1..]);
      LastOfLastAppend(history + [bpms[0]], bpms[1..], HistorySize);
      assert history + [bpms[0]] + bpms[1..] == history + bpms;
    }
  }

  /** The published value: the unweighted mean of the history. */
  function Mean(history: seq<real>): real
    requires |history| > 0
  {
    SumReal(history) / (|history| as real)
  }

  /** The mean lies between the smallest and largest value it averages. */
  lemma MeanWithinBounds(history: seq<real>, lo: real, hi: real)
    requires |history| > 0
    requires forall i :: 0 <= i < |history| ==> lo <= history[i] <= hi
    ensures lo <= Mean(history) <= hi
  {
    var n := |history| as real;
    SumRealBounds(history, lo, hi);
    var m := Mean(history);
    assert m * n == SumReal(history);
    assert (m - lo) * n >= 0.0;
    assert (hi - m) * n >= 0.0;
  }

  /** Averaging a history of equal estimates gives that estimate back. */
  lemma MeanOfEqual(history: seq<real>, b: real)
    requires |history| > 0
    requires forall i :: 0 <= i < |history| ==> history[i] == b
    ensures Mean(history) == b
  {
    MeanWithinBounds(history, b, b);
  }

  /** The sum of a four-entry history, spelled out. */
  lemma SumOfFour(a: real, b: real, c: real, d: real)
    ensures SumReal([a, b, c, d]) == a + b + c + d
  {
    assert [a][..0] == [];
    assert SumReal([a]) == a;
    assert [a, b][..1] == [a];
    assert SumReal([a, b]) == a + b;
    assert [a, b, c][..2] == [a, b];
    assert SumReal([a, b, c]) == a + b + c;
    assert [a, b, c, d][..3] == [a, b, c];
  }

  /** Five valid estimates b1..b5 from an empty history publish mean(b2..b5). */
  lemma FifthEstimateDropsFirst(b1: real, b2: real, b3: real, b4: real, b5: real)
    ensures AcceptAll([], [b1, b2, b3, b4, b5]) == [b2, b3, b4, b5]
    ensures Mean(AcceptAll([], [b1, b2, b3, b4, b5])) == (b2 + b3 + b4 + b5) / 4.0
  {
    FiveKeepAllButFirst([b1, b2, b3, b4, b5]);
    assert [b1, b2, b3, b4, b5][1..] == [b2, b3, b4, b5];
    SumOfFour(b2, b3, b4, b5);
  }

  /** The history part of `FifthEstimateDropsFirst`: five estimates from an
      empty history keep all but the first. */
  lemma FiveKeepAllButFirst(bs: seq<real>)
    requires |bs| == 5
    ensures AcceptAll([], bs) == bs[1..]
  {
    AcceptAllIsLastFour([], bs);
    assert [] + bs == bs;
  }
}
