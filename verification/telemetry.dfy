/** What the monitor reports and how a report becomes a line on the
    Bluetooth stream (sender.py, the messages of `_run_sensor` and
    `send_bluetooth_data`). */
module Telemetry {
  import opened Wrappers

  /** The two reports of a tick. A reading carries the published BPM and the
      SpO2 value exactly as the estimator returned it; its `%.2f` text
      rendering is not modelled. */
  datatype Message = FingerNotDetected | Reading(bpm: real, spo2: real)

  /** The estimator's "SpO2 not computed" sentinel. */
  const NoSpo2: real := -999.0

  /** The text sent for `FingerNotDetected`. */
  const NotDetectedText: string := "Finger not detected"

  /** The line terminator appended to every send. */
  const Newline: char := '\n'

  predicate NoNewline(s: string) {
    Newline !in s
  }

  /** The text handed to `send_bluetooth_data` for a report, where the model
      has one: the finger-absent literal. A reading's text comes from `%.2f`
      formatting, which is not modelled. */
  function Text(m: Message): (r: Option<string>)
    ensures r.Some? <==> m == FingerNotDetected
    ensures r.Some? ==> r.value == NotDetectedText && NoNewline(r.value)
  {
    match m
    case FingerNotDetected => Some(NotDetectedText)
    case Reading(_, _) => None
  }

  /** `send_bluetooth_data`: with no socket nothing goes out; otherwise the
      data goes out followed by exactly one line terminator. */
  function Send(connected: bool, data: string): (r: Option<string>)
    ensures r.Some? <==> connected
    ensures r.Some? ==> |r.value| == |data| + 1 && r.value[..|data|] == data
    ensures r.Some? ==> r.value[|data|] == Newline
    ensures r.Some? && NoNewline(data) ==> multiset(r.value)[Newline] == 1
  {
    if connected then
      var line := data + [Newline];
      assert multiset(line) == multiset(data) + multiset{Newline};
      Some(line)
    else
      None
  }

  /** The byte stream a connected sender produces for a run of sends. */
  function Stream(lines: seq<string>): string
  {
    if |lines| == 0 then [] else lines[0] + [Newline] + Stream(lines[1..])
  }

  /** Position of the first line terminator in a string that has one. */
  function FirstNewline(s: string): (i: nat)
    requires Newline in s
    ensures i < |s| && s[i] == Newline
    ensures NoNewline(s[..i])
  {
    if s[0] == Newline then 0 else
      assert Newline in s[1..] by {
        var k :| 0 <= k < |s| && s[k] == Newline;
        assert s[1..][k - 1] == Newline;
      }
      var j := FirstNewline(s[1..]);
      assert s[..j + 1] == [s[0]] + s[1..][..j];
      j + 1
  }

  /** A reference line reader for the byte stream the sender produces:
      every complete line, terminator removed; an unterminated tail is held
      back. It states what the framing makes recoverable; it is not a model
      of `receiver.py`, which prints each received chunk as it arrives. */
  function SplitLines(s: string): seq<string>
    decreases |s|
  {
    if NoNewline(s) then []
    else
      var i := FirstNewline(s);
      [s[..i]] + SplitLines(s[i + 1..])
  }

  /** Splitting the stream of framed lines gives the lines back, provided no
      line carries a terminator of its own. */
  lemma {:induction false} SplitStream(lines: seq<string>)
    requires forall k :: 0 <= k < |lines| ==> NoNewline(lines[k])
    ensures SplitLines(Stream(lines)) == lines
    decreases |lines|
  {
    if |lines| > 0 {
      var l := lines[0];
      var s := Stream(lines);
      var rest := Stream(lines[1..]);
      assert s == l + [Newline] + rest;
      assert s[|l|] == Newline;
      assert Newline in s;
      var i := FirstNewline(s);
      assert s[..i] == l;
      assert s[i + 1..] == rest;
      SplitStream(lines[1..]);
    }
  }

  /** One sent line is read back as exactly the data that was sent. */
  lemma SentLineReadsBack(data: string)
    requires NoNewline(data)
    ensures Send(true, data).Some?
    ensures SplitLines(Send(true, data).value) == [data]
  {
    SplitStream([data]);
    assert Stream([data]) == data + [Newline] + [];
  }

  /** The line a connected sender writes when the finger is absent. */
  lemma NotDetectedLine()
    ensures Send(true, Text(FingerNotDetected).value) == Some("Finger not detected\n")
  {
    assert NotDetectedText + [Newline] == "Finger not detected\n";
  }
}
