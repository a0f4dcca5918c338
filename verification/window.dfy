/** The paired sample buffers of the run loop and the finger-presence test
    made on them (sender.py, `_run_sensor`). */
module Window {
  import opened Seqs

  /** Number of samples the estimator works on; the buffers are trimmed to it. */
  const WindowSize: nat := 100

  /** Intensity below which a channel's mean counts as "no finger". */
  const Threshold: nat := 50000

  /** One FIFO read from the sensor: `read_fifo()` returns red first, then infrared. */
  datatype Sample = Sample(red: nat, ir: nat)

  /** The infrared channel of a batch, in arrival order. */
  function IrOf(batch: seq<Sample>): (r: seq<nat>)
    ensures |r| == |batch|
    ensures forall i :: 0 <= i < |batch| ==> r[i] == batch[i].ir
  {
    seq(|batch|, i requires 0 <= i < |batch| => batch[i].ir)
  }

  /** The red channel of a batch, in arrival order. */
  function RedOf(batch: seq<Sample>): (r: seq<nat>)
    ensures |r| == |batch|
    ensures forall i :: 0 <= i < |batch| ==> r[i] == batch[i].red
  {
    seq(|batch|, i requires 0 <= i < |batch| => batch[i].red)
  }

  lemma IrOfAppend(a: seq<Sample>, b: seq<Sample>)
    ensures IrOf(a + b) == IrOf(a) + IrOf(b)
  {
  }

  lemma RedOfAppend(a: seq<Sample>, b: seq<Sample>)
    ensures RedOf(a + b) == RedOf(a) + RedOf(b)
  {
  }

  /** The two buffers after appending a batch and trimming: the decision to
      trim is taken on the infrared buffer's length alone, and then both
      buffers keep their last `WindowSize` samples. */
  function Refill(ir: seq<nat>, red: seq<nat>, batch: seq<Sample>): (r: (seq<nat>, seq<nat>))
    requires |ir| == |red|
    ensures |r.0| == |r.1| == Min(|ir| + |batch|, WindowSize)
    ensures forall i :: 0 <= i < |r.0| ==> r.0[i] == (ir + IrOf(batch))[|ir| + |batch| - |r.0| + i]
    ensures forall i :: 0 <= i < |r.1| ==> r.1[i] == (red + RedOf(batch))[|red| + |batch| - |r.1| + i]
  {
    var ir' := ir + IrOf(batch);
    var red' := red + RedOf(batch);
    if |ir'| > WindowSize then (Last(ir', WindowSize), Last(red', WindowSize)) else (ir', red')
  }

  /** The trim of `Refill` is exactly the bounded-tail policy on each channel. */
  lemma RefillIsLast(ir: seq<nat>, red: seq<nat>, batch: seq<Sample>)
    requires |ir| == |red|
    ensures Refill(ir, red, batch).0 == Last(ir + IrOf(batch), WindowSize)
    ensures Refill(ir, red, batch).1 == Last(red + RedOf(batch), WindowSize)
  {
  }

  /** A channel is dark when its mean is strictly below the threshold, stated
      over integers: sum < threshold * length. An empty channel is not dark,
      matching a mean of an empty list, which is not a number and compares false. */
  predicate Dark(s: seq<nat>) {
    Sum(s) < Threshold * |s|
  }

  /** Finger absent: both channels dark. */
  predicate FingerAbsent(ir: seq<nat>, red: seq<nat>) {
    Dark(ir) && Dark(red)
  }

  /** The arithmetic mean of a channel, as the source computes it before comparing. */
  function ChannelMean(s: seq<nat>): real
    requires |s| > 0
  {
    (Sum(s) as real) / (|s| as real)
  }

  /** Dividing by a positive count preserves a strict upper bound both ways. */
  lemma QuotientBelow(x: real, n: real, t: real)
    requires n > 0.0
    ensures x / n < t <==> x < t * n
  {
    var m := x / n;
    assert m * n == x;
    assert (t - m) * n == t * n - x;
    if m < t {
      assert (t - m) * n > 0.0;
    } else {
      assert (m - t) * n >= 0.0;
    }
  }

  /** The integer test agrees with the source's test on means. */
  lemma DarkIffMeanBelow(s: seq<nat>)
    ensures Dark(s) <==> |s| > 0 && ChannelMean(s) < Threshold as real
  {
    if |s| > 0 {
      QuotientBelow(Sum(s) as real, |s| as real, Threshold as real);
    }
  }

  /** Finger absent holds iff both channel means are strictly below 50000. */
  lemma FingerAbsentIffMeansBelow(ir: seq<nat>, red: seq<nat>)
    ensures FingerAbsent(ir, red) <==>
      |ir| > 0 && |red| > 0 && ChannelMean(ir) < Threshold as real && ChannelMean(red) < Threshold as real
  {
    DarkIffMeanBelow(ir);
    DarkIffMeanBelow(red);
  }

  /** A window whose every sample reads exactly the threshold is not dark:
      the comparison is strict. */
  lemma AtThresholdIsNotDark(n: nat)
    requires n > 0
    ensures !Dark(seq(n, _ => Threshold))
  {
    SumConstant(Threshold, n);
  }

  /** A window whose every sample reads one below the threshold is dark. */
  lemma BelowThresholdIsDark(n: nat)
    requires n > 0
    ensures Dark(seq(n, _ => Threshold - 1))
  {
    SumConstant(Threshold - 1, n);
  }

  /** A window of zero readings (nothing on the sensor) is dark. */
  lemma ZerosAreDark(n: nat)
    requires n > 0
    ensures Dark(seq(n, _ => 0))
  {
    SumConstant(0, n);
  }
}
