/** One iteration of `HeartRateMonitor._run_sensor` (sender.py) as a pure
    step over the worker's state, and runs of such steps. */
module Monitor {
  import opened Wrappers
  import opened Seqs
  import opened Window
  import opened Smoothing
  import opened Telemetry

  /** What `hrcalc.calc_hr_and_spo2` returns: (bpm, valid_bpm, spo2, valid_spo2).
      The run loop never looks at `validSpo2`; it tests `spo2` against the
      sentinel instead. */
  datatype Estimate = Estimate(bpm: real, validBpm: bool, spo2: real, validSpo2: bool)

  /** The estimator, called on the infrared window first, then the red one. */
  type Estimator = (seq<nat>, seq<nat>) -> Estimate

  /** The worker's state: the two sample buffers, the BPM history and the
      published `bpm`. */
  datatype State = State(ir: seq<nat>, red: seq<nat>, history: seq<real>, bpm: real)

  /** The result of one tick: the next state and the report, if any. */
  datatype Step = Step(next: State, message: Option<Message>)

  /** The state when the worker starts: empty buffers and history, `bpm` 0. */
  const Init: State := State([], [], [], 0.0)

  /** The invariant every reachable state keeps: buffers of equal length
      within the window, history within four, and `bpm` either 0 or the mean
      of the history. */
  predicate Wf(s: State) {
    && |s.ir| == |s.red| <= WindowSize
    && |s.history| <= HistorySize
    && (s.bpm == 0.0 || (|s.history| > 0 && s.bpm == Mean(s.history)))
  }

  /** The state with the batch appended to both buffers and the buffers trimmed. */
  function Filled(s: State, batch: seq<Sample>): (r: State)
    requires |s.ir| == |s.red|
    ensures |r.ir| == |r.red| == Min(|s.ir| + |batch|, WindowSize)
    ensures r.history == s.history && r.bpm == s.bpm
  {
    var (ir, red) := Refill(s.ir, s.red, batch);
    s.(ir := ir, red := red)
  }

  /** Whether a tick with this batch calls the estimator: some samples were
      read and the trimmed buffer holds exactly a full window. */
  predicate Consulted(s: State, batch: seq<Sample>)
    requires |s.ir| == |s.red|
  {
    |batch| > 0 && |Filled(s, batch).ir| == WindowSize
  }

  /** What follows a call of the estimator on a full window (`s` already
      holds the refilled buffers). Everything is nested under `valid_bpm`:
      an invalid estimate changes nothing and reports nothing. A valid one
      is accepted into the history and its mean published; then a dark
      window overrides the published value with 0 (the history keeps the
      estimate) and reports `FingerNotDetected`, while a lit window reports
      the reading unless SpO2 is the sentinel. Reports exist only when
      `printResult` is set. */
  function Assess(s: State, e: Estimate, printResult: bool): (r: Step)
    ensures !e.validBpm ==> r == Step(s, None)
    ensures e.validBpm ==> r.next.ir == s.ir && r.next.red == s.red
    ensures e.validBpm ==> |r.next.history| > 0 && r.next.history[|r.next.history| - 1] == e.bpm
    ensures FingerAbsent(s.ir, s.red) ==> r.next.bpm == 0.0 || !e.validBpm
    ensures r.message.Some? ==> printResult && e.validBpm
    ensures r.message == Some(FingerNotDetected) <==>
      printResult && e.validBpm && FingerAbsent(s.ir, s.red)
    ensures r.message.Some? && r.message.value.Reading? ==>
      && !FingerAbsent(s.ir, s.red)
      && e.spo2 != NoSpo2
      && r.message.value.spo2 == e.spo2
      && r.message.value.bpm == r.next.bpm == Mean(r.next.history)
  {
    if !e.validBpm then Step(s, None)
    else
      var history := Accept(s.history, e.bpm);
      var mean := Mean(history);
      if FingerAbsent(s.ir, s.red) then
        Step(s.(history := history, bpm := 0.0),
             if printResult then Some(FingerNotDetected) else None)
      else
        Step(s.(history := history, bpm := mean),
             if printResult && e.spo2 != NoSpo2 then Some(Reading(mean, e.spo2)) else None)
  }

  /** One tick of the run loop. A tick that reads no samples does nothing at
      all; otherwise the samples are buffered and, on a full window only, the
      estimator is consulted and its result assessed. */
  function Tick(s: State, batch: seq<Sample>, estimator: Estimator, printResult: bool): (r: Step)
    requires |s.ir| == |s.red|
    ensures |batch| == 0 ==> r == Step(s, None)
    ensures |r.next.ir| == |r.next.red|
    ensures !Consulted(s, batch) ==> r.message == None && r.next.history == s.history && r.next.bpm == s.bpm
    ensures r.message.Some? ==> printResult && |r.next.ir| == WindowSize
  {
    if |batch| == 0 then Step(s, None)
    else
      var filled := Filled(s, batch);
      if |filled.ir| == WindowSize then
        Assess(filled, estimator(filled.ir, filled.red), printResult)
      else
        Step(filled, None)
  }

  /** Every tick keeps the state invariant. */
  lemma TickKeepsWf(s: State, batch: seq<Sample>, estimator: Estimator, printResult: bool)
    requires Wf(s)
    ensures Wf(Tick(s, batch, estimator, printResult).next)
  {
    var r := Tick(s, batch, estimator, printResult);
    if |batch| > 0 {
      var f := Filled(s, batch);
      var e := estimator(f.ir, f.red);
      if Consulted(s, batch) {
        assert r == Assess(f, e, printResult);
        if e.validBpm {
          assert |r.next.history| <= HistorySize;
          assert r.next.bpm == 0.0 || r.next.bpm == Mean(r.next.history);
        }
      } else {
        assert r == Step(f, None);
      }
    }
  }

  /** After a tick that read samples, each buffer is the last (at most) 100
      of what it held plus the new samples, in arrival order. */
  lemma TickBuffersAreLatest(s: State, batch: seq<Sample>, estimator: Estimator, printResult: bool)
    requires Wf(s)
    ensures Tick(s, batch, estimator, printResult).next.ir == Last(s.ir + IrOf(batch), WindowSize)
    ensures Tick(s, batch, estimator, printResult).next.red == Last(s.red + RedOf(batch), WindowSize)
  {
    RefillIsLast(s.ir, s.red, batch);
    if |batch| == 0 {
      assert s.ir + IrOf(batch) == s.ir;
      assert s.red + RedOf(batch) == s.red;
      LastOfShort(s.ir, WindowSize);
      LastOfShort(s.red, WindowSize);
    }
  }

  /** The estimator is consulted only on a full window: whenever the tick
      does not reach exactly 100 samples, its outcome is the same whatever
      the estimator would have said. */
  lemma EstimatorIgnoredUnlessFull(s: State, batch: seq<Sample>, e1: Estimator, e2: Estimator, printResult: bool)
    requires |s.ir| == |s.red|
    requires !Consulted(s, batch)
    ensures Tick(s, batch, e1, printResult) == Tick(s, batch, e2, printResult)
  {
  }

  /** A buffer that reaches 99 samples, from any state and with any batch,
      never triggers estimation or a report, and history and `bpm` stay. */
  lemma NinetyNineIsNotFull(s: State, batch: seq<Sample>, estimator: Estimator, printResult: bool)
    requires |s.ir| == |s.red|
    requires |Filled(s, batch).ir| == WindowSize - 1
    ensures !Consulted(s, batch)
    ensures var r := Tick(s, batch, estimator, printResult);
      r.message == None && r.next.history == s.history && r.next.bpm == s.bpm
  {
  }

  /** On a consulted tick with a valid estimate, the estimate enters the
      history (keeping the last four), and the published value is their
      mean when the finger is present and 0 when it is absent. */
  lemma ValidEstimateIsSmoothed(s: State, batch: seq<Sample>, estimator: Estimator, printResult: bool)
    requires |s.ir| == |s.red|
    requires Consulted(s, batch)
    requires estimator(Filled(s, batch).ir, Filled(s, batch).red).validBpm
    ensures var r := Tick(s, batch, estimator, printResult);
      && r.next.history == Accept(s.history, estimator(r.next.ir, r.next.red).bpm)
      && (FingerAbsent(r.next.ir, r.next.red) ==> r.next.bpm == 0.0)
      && (!FingerAbsent(r.next.ir, r.next.red) ==> r.next.bpm == Mean(r.next.history))
  {
  }

  /** On a consulted tick with an invalid estimate only the buffers move:
      history and `bpm` stay and nothing is reported, dark window or not. */
  lemma InvalidEstimateChangesNothing(s: State, batch: seq<Sample>, estimator: Estimator, printResult: bool)
    requires |s.ir| == |s.red|
    requires Consulted(s, batch)
    requires !estimator(Filled(s, batch).ir, Filled(s, batch).red).validBpm
    ensures var r := Tick(s, batch, estimator, printResult);
      r.next == Filled(s, batch) && r.message == None
  {
  }

  /** The report of a tick, both ways: `FingerNotDetected` exactly when a
      printing tick consults the estimator, gets a valid BPM and sees a dark
      window; a reading exactly when the window is lit instead and SpO2 is
      not the sentinel. */
  lemma TickReports(s: State, batch: seq<Sample>, estimator: Estimator, printResult: bool)
    requires |s.ir| == |s.red|
    ensures var r := Tick(s, batch, estimator, printResult);
      var f := Filled(s, batch);
      var e := estimator(f.ir, f.red);
      && (r.message == Some(FingerNotDetected) <==>
           printResult && Consulted(s, batch) && e.validBpm && FingerAbsent(f.ir, f.red))
      && (r.message == Some(Reading(r.next.bpm, e.spo2)) <==>
           printResult && Consulted(s, batch) && e.validBpm && !FingerAbsent(f.ir, f.red) && e.spo2 != NoSpo2)
  {
  }

  // ---------------------------------------------------------------------
  // Runs of ticks

  /** The final state and every report of a run of ticks, one batch per tick. */
  datatype Trace = Trace(final: State, messages: seq<Message>)

  function Run(s: State, batches: seq<seq<Sample>>, estimator: Estimator, printResult: bool): Trace
    requires |s.ir| == |s.red|
    decreases |batches|
  {
    if |batches| == 0 then Trace(s, [])
    else
      var step := Tick(s, batches[0], estimator, printResult);
      var rest := Run(step.next, batches[1..], estimator, printResult);
      Trace(rest.final, ToSeq(step.message) + rest.messages)
  }

  /** All samples of a run, in arrival order. */
  function Flatten(batches: seq<seq<Sample>>): (r: seq<Sample>)
    decreases |batches|
  {
    if |batches| == 0 then [] else batches[0] + Flatten(batches[1..])
  }

  /** Every run keeps the state invariant. */
  lemma {:induction false} RunKeepsWf(s: State, batches: seq<seq<Sample>>, estimator: Estimator, printResult: bool)
    requires Wf(s)
    ensures Wf(Run(s, batches, estimator, printResult).final)
    decreases |batches|
  {
    if |batches| > 0 {
      var step := Tick(s, batches[0], estimator, printResult);
      TickKeepsWf(s, batches[0], estimator, printResult);
      RunKeepsWf(step.next, batches[1..], estimator, printResult);
    }
  }

  /** After any run, each buffer is the last (at most) 100 of everything it
      held plus every sample read, in arrival order. */
  lemma {:induction false} RunBuffersAreLatest(s: State, batches: seq<seq<Sample>>, estimator: Estimator, printResult: bool)
    requires Wf(s)
    ensures Run(s, batches, estimator, printResult).final.ir == Last(s.ir + IrOf(Flatten(batches)), WindowSize)
    ensures Run(s, batches, estimator, printResult).final.red == Last(s.red + RedOf(Flatten(batches)), WindowSize)
    decreases |batches|
  {
    if |batches| == 0 {
      assert s.ir + IrOf([]) == s.ir;
      assert s.red + RedOf([]) == s.red;
      LastOfShort(s.ir, WindowSize);
      LastOfShort(s.red, WindowSize);
    } else {
      var b := batches[0];
      var rest := Flatten(batches[1..]);
      var step := Tick(s, b, estimator, printResult);
      var t := Run(step.next, batches[1..], estimator, printResult);
      assert Run(s, batches, estimator, printResult).final == t.final;
      assert Flatten(batches) == b + rest;
      TickKeepsWf(s, b, estimator, printResult);
      TickBuffersAreLatest(s, b, estimator, printResult);
      RunBuffersAreLatest(step.next, batches[1..], estimator, printResult);
      IrOfAppend(b, rest);
      RedOfAppend(b, rest);
      LastInTwoSteps(s.ir, IrOf(b), IrOf(rest), step.next.ir, t.final.ir, WindowSize);
      LastInTwoSteps(s.red, RedOf(b), RedOf(rest), step.next.red, t.final.red, WindowSize);
    }
  }

  /** From the start state, each buffer is the last min(100, total) samples read. */
  lemma RunFromInitKeepsLatest(batches: seq<seq<Sample>>, estimator: Estimator, printResult: bool)
    ensures var t := Run(Init, batches, estimator, printResult);
      && |t.final.ir| == |t.final.red| == Min(|Flatten(batches)|, WindowSize)
      && t.final.ir == Last(IrOf(Flatten(batches)), WindowSize)
      && t.final.red == Last(RedOf(Flatten(batches)), WindowSize)
  {
    RunBuffersAreLatest(Init, batches, estimator, printResult);
    assert Init.ir + IrOf(Flatten(batches)) == IrOf(Flatten(batches));
    assert Init.red + RedOf(Flatten(batches)) == RedOf(Flatten(batches));
  }

  /** Ticks that read no samples leave the state as it was and report nothing,
      however many of them there are. */
  lemma {:induction false} IdleRunChangesNothing(s: State, batches: seq<seq<Sample>>, estimator: Estimator, printResult: bool)
    requires |s.ir| == |s.red|
    requires forall k :: 0 <= k < |batches| ==> |batches[k]| == 0
    ensures Run(s, batches, estimator, printResult) == Trace(s, [])
    decreases |batches|
  {
    if |batches| > 0 {
      IdleRunChangesNothing(s, batches[1..], estimator, printResult);
    }
  }

  /** Without `print_result` no run reports anything. */
  lemma {:induction false} SilentWithoutPrint(s: State, batches: seq<seq<Sample>>, estimator: Estimator)
    requires |s.ir| == |s.red|
    ensures Run(s, batches, estimator, false).messages == []
    decreases |batches|
  {
    if |batches| > 0 {
      var step := Tick(s, batches[0], estimator, false);
      SilentWithoutPrint(step.next, batches[1..], estimator);
    }
  }

  /** The estimate one tick accepts into the history, if any: its own when
      the tick fills the window and the estimate is valid. */
  function Contribution(s: State, batch: seq<Sample>, estimator: Estimator): (r: seq<real>)
    requires |s.ir| == |s.red|
  {
    var f := Filled(s, batch);
    var e := estimator(f.ir, f.red);
    if Consulted(s, batch) && e.validBpm then [e.bpm] else []
  }

  /** The buffers a tick leaves behind, with history and `bpm` untouched. */
  function Advance(s: State, batch: seq<Sample>): (r: State)
    requires |s.ir| == |s.red|
  {
    if |batch| == 0 then s else Filled(s, batch)
  }

  /** The estimates a run accepts into the history, oldest first, computed
      from the buffers alone. */
  function Accepted(s: State, batches: seq<seq<Sample>>, estimator: Estimator): seq<real>
    requires |s.ir| == |s.red|
    decreases |batches|
  {
    if |batches| == 0 then []
    else Contribution(s, batches[0], estimator) + Accepted(Advance(s, batches[0]), batches[1..], estimator)
  }

  /** Buffers are all that `Accepted` follows, so history and `bpm` do not
      change which estimates a run accepts. */
  lemma {:induction false} AcceptedIgnoresHistory(s: State, t: State, batches: seq<seq<Sample>>, estimator: Estimator)
    requires |s.ir| == |s.red|
    requires s.ir == t.ir && s.red == t.red
    ensures Accepted(s, batches, estimator) == Accepted(t, batches, estimator)
    decreases |batches|
  {
    if |batches| > 0 {
      AcceptedIgnoresHistory(Advance(s, batches[0]), Advance(t, batches[0]), batches[1..], estimator);
    }
  }

  /** One tick's history is the last four of the old history and the tick's
      contribution; its buffers are those of `Advance`. */
  lemma TickHistory(s: State, batch: seq<Sample>, estimator: Estimator, printResult: bool)
    requires Wf(s)
    ensures var r := Tick(s, batch, estimator, printResult);
      && r.next.history == Last(s.history + Contribution(s, batch, estimator), HistorySize)
      && r.next.ir == Advance(s, batch).ir && r.next.red == Advance(s, batch).red
  {
    var r := Tick(s, batch, estimator, printResult);
    if |batch| == 0 {
      assert r.next == s;
      assert s.history + [] == s.history;
      LastOfShort(s.history, HistorySize);
    } else {
      var f := Filled(s, batch);
      var e := estimator(f.ir, f.red);
      if Consulted(s, batch) {
        assert r == Assess(f, e, printResult);
        if e.validBpm {
          assert Contribution(s, batch, estimator) == [e.bpm];
          assert r.next.history == Accept(s.history, e.bpm);
        } else {
          assert Contribution(s, batch, estimator) == [];
          assert s.history + [] == s.history;
          LastOfShort(s.history, HistorySize);
        }
      } else {
        assert r == Step(f, None);
        assert Contribution(s, batch, estimator) == [];
        assert s.history + [] == s.history;
        LastOfShort(s.history, HistorySize);
      }
    }
  }

  /** After any run the history is the last (at most) four of the history it
      started with and every estimate the run accepted, whatever the finger
      check decided: the history is never cleared. */
  lemma {:induction false} RunHistoryIsLastFour(s: State, batches: seq<seq<Sample>>, estimator: Estimator, printResult: bool)
    requires Wf(s)
    ensures Run(s, batches, estimator, printResult).final.history
            == Last(s.history + Accepted(s, batches, estimator), HistorySize)
    decreases |batches|
  {
    if |batches| == 0 {
      assert s.history + [] == s.history;
      LastOfShort(s.history, HistorySize);
    } else {
      var b := batches[0];
      var step := Tick(s, b, estimator, printResult);
      var t := Run(step.next, batches[1..], estimator, printResult);
      assert Run(s, batches, estimator, printResult).final == t.final;
      var mine := Contribution(s, b, estimator);
      var later := Accepted(Advance(s, b), batches[1..], estimator);
      assert Accepted(s, batches, estimator) == mine + later;
      TickKeepsWf(s, b, estimator, printResult);
      TickHistory(s, b, estimator, printResult);
      RunHistoryIsLastFour(step.next, batches[1..], estimator, printResult);
      AcceptedIgnoresHistory(step.next, Advance(s, b), batches[1..], estimator);
      LastInTwoSteps(s.history, mine, later, step.next.history, t.final.history, HistorySize);
    }
  }

  // ---------------------------------------------------------------------
  // Scenarios

  /** One hundred zero-intensity samples read in a single tick. */
  function DarkBatch(): (b: seq<Sample>)
    ensures |b| == WindowSize
    ensures forall i :: 0 <= i < |b| ==> b[i] == Sample(0, 0)
  {
    seq(WindowSize, _ => Sample(0, 0))
  }

  /** With a valid estimate, 100 dark samples from the start publish 0 and
      report exactly "Finger not detected", which a connected sender frames
      as that text and one terminator. */
  lemma DarkWindowReportsNoFinger(estimator: Estimator)
    requires estimator(seq(WindowSize, _ => 0), seq(WindowSize, _ => 0)).validBpm
    ensures var r := Tick(Init, DarkBatch(), estimator, true);
      && r.next.bpm == 0.0
      && r.message == Some(FingerNotDetected)
      && Send(true, Text(r.message.value).value) == Some("Finger not detected\n")
  {
    DarkFilledWindow();
    var f := Filled(Init, DarkBatch());
    assert Tick(Init, DarkBatch(), estimator, true) == Assess(f, estimator(f.ir, f.red), true);
    ZerosAreDark(WindowSize);
    NotDetectedLine();
  }

  /** The state after reading the dark batch from the start. */
  lemma DarkFilledWindow()
    ensures Consulted(Init, DarkBatch())
    ensures Filled(Init, DarkBatch()).ir == seq(WindowSize, _ => 0)
    ensures Filled(Init, DarkBatch()).red == seq(WindowSize, _ => 0)
  {
    var b := DarkBatch();
    assert IrOf(b) == seq(WindowSize, _ => 0);
    assert RedOf(b) == seq(WindowSize, _ => 0);
    assert Init.ir + IrOf(b) == IrOf(b);
    assert Init.red + RedOf(b) == RedOf(b);
  }

  /** With an invalid estimate the same dark window reports nothing: the
      finger check sits under the validity test. */
  lemma DarkWindowInvalidEstimateIsSilent(estimator: Estimator)
    requires !estimator(seq(WindowSize, _ => 0), seq(WindowSize, _ => 0)).validBpm
    ensures var r := Tick(Init, DarkBatch(), estimator, true);
      r.next.bpm == 0.0 && r.message == None && r.next.history == []
  {
    DarkFilledWindow();
  }

  /** An estimator that returns the same estimate for every window. */
  function Constant(e: Estimate): (f: Estimator)
    ensures forall ir, red :: f(ir, red) == e
  {
    (ir: seq<nat>, red: seq<nat>) => e
  }

  /** One hundred samples reading exactly the threshold on both channels. */
  function LitBatch(): (b: seq<Sample>)
    ensures |b| == WindowSize
    ensures forall i :: 0 <= i < |b| ==> b[i] == Sample(Threshold, Threshold)
  {
    seq(WindowSize, _ => Sample(Threshold, Threshold))
  }

  /** The state after reading the lit batch from the start. */
  lemma LitFilledWindow()
    ensures Consulted(Init, LitBatch())
    ensures Filled(Init, LitBatch()).ir == seq(WindowSize, _ => Threshold)
    ensures Filled(Init, LitBatch()).red == seq(WindowSize, _ => Threshold)
  {
    var b := LitBatch();
    assert IrOf(b) == seq(WindowSize, _ => Threshold);
    assert RedOf(b) == seq(WindowSize, _ => Threshold);
    assert Init.ir + IrOf(b) == IrOf(b);
    assert Init.red + RedOf(b) == RedOf(b);
  }

  /** A reachable tick that publishes a chosen value: the first full, lit
      window with a valid estimate publishes that estimate, the mean of the
      one-entry history. */
  lemma LitWindowPublishes(e: Estimate, printResult: bool)
    requires e.validBpm
    ensures Tick(Init, LitBatch(), Constant(e), printResult).next.bpm == e.bpm
  {
    var estimator := Constant(e);
    var f := Filled(Init, LitBatch());
    LitWindowIsLit();
    assert estimator(f.ir, f.red) == e;
    ValidEstimateIsSmoothed(Init, LitBatch(), estimator, printResult);
    var r := Tick(Init, LitBatch(), estimator, printResult);
    assert r.next.history == Accept([], e.bpm);
    FirstAcceptedIsMean(e.bpm);
  }

  /** Accepting into an empty history publishes the estimate itself. */
  lemma FirstAcceptedIsMean(b: real)
    ensures Accept([], b) == [b]
    ensures Mean(Accept([], b)) == b
  {
    assert [] + [b] == [b];
    MeanOfEqual([b], b);
  }

  /** The lit batch fills the window and the finger counts as present. */
  lemma LitWindowIsLit()
    ensures Consulted(Init, LitBatch())
    ensures !FingerAbsent(Filled(Init, LitBatch()).ir, Filled(Init, LitBatch()).red)
  {
    LitFilledWindow();
    AtThresholdIsNotDark(WindowSize);
  }
}
