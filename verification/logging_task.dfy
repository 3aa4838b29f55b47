/**
 * The imperative parts of logging_task/do_it_yourself.py: `process_error`, whose pair
 * checks are a `for` loop with an early return, and the record loop and cleanup of
 * `process_file`, with the file replaced by the sequence of its lines.
 */
module LoggingTask {
  import opened Wrappers
  import opened PyStr
  import opened Binary
  import opened LogLine
  import opened FaultDecoder
  import opened Aggregate

  /**
   * `process_error(sp1, sp2)`: pads the processed status text with `zfill`, then returns the
   * message of the first of the three pairs whose bit at index 4 of `format(n, '08b')` is set.
   */
  method ProcessError(sp1: string, sp2: string) returns (msg: string)
    requires Decodable(sp1, sp2)
    ensures msg == Message(Decode(sp1, sp2))
    ensures msg in Messages
  {
    if sp1 == "" || sp2 == "" {
      return "Unknown device error";
    }
    var sp1Processed := sp1[..|sp1| - 1];
    var sp2Processed := LStrip(sp2, {'-'});
    var combined := ZFill(sp1Processed + sp2Processed, 6)[..6];
    assert combined == Window(sp1, sp2);
    msg := CheckPairs(combined);
  }

  /**
   * The `for` loop of `process_error` over the three pairs of the padded window, with its
   * early return: the message of the first pair whose flag is set, or the unknown fault.
   */
  method CheckPairs(combined: string) returns (msg: string)
    requires |combined| == Width && AllDigits(combined)
    ensures msg == Message(Reason(combined))
    ensures msg in Messages
  {
    var errorTypes := ["Battery device error", "Temperature device error", "Threshold central error"];
    assert errorTypes == PairMessages;
    for i := 0 to 3
      invariant forall j :: 0 <= j < i ==> !Flag(PairValue(combined, j))
    {
      var pair := combined[i * 2..i * 2 + 2];
      PairBit(combined, i);
      if Format08b(DigitsValue(pair))[4] == '1' {
        FirstFlag(combined, i);
        return errorTypes[i];
      }
      assert !Flag(PairValue(combined, i));
    }
    return "Unknown device error";
  }

  /**
   * `process_file` on a file whose lines are `lines`: the loop over the parsed records, the
   * removal of failed sensors from the healthy ones, and the returned tuple.
   */
  method ProcessFile(lines: seq<string>) returns (summary: Summary)
    requires Decodes(ParseAll(lines))
    ensures summary == Summarize(ParseAll(lines))
  {
    ghost var recs := ParseAll(lines);
    var successMessages: map<string, int> := map[];
    var failedSensors: map<string, string> := map[];
    for i := 0 to |lines|
      invariant Decodes(recs[..i])
      invariant Tally(successMessages, failedSensors) == Fold(recs[..i])
    {
      FoldNext(recs, i);
      var entry := ParseLogLine(lines[i]);
      successMessages, failedSensors := ApplyRecord(successMessages, failedSensors, entry);
    }
    assert recs[..|lines|] == recs;
    successMessages := RemoveFailed(successMessages, failedSensors);
    var allDevices := |successMessages| + |failedSensors|;
    return Summary(allDevices, |successMessages|, |failedSensors|, failedSensors, successMessages);
  }

  /** The body of the record loop of `process_file`, applied to one parsed line. */
  method ApplyRecord(success: map<string, int>, failed: map<string, string>, entry: Option<Entry>)
    returns (success': map<string, int>, failed': map<string, string>)
    requires StepDecodes(Tally(success, failed), entry)
    ensures Tally(success', failed') == Step(Tally(success, failed), entry)
  {
    success', failed' := success, failed;
    if entry.None? {
      return;
    }
    var sensorId := entry.value.sensorId;
    if IsFailed(entry.value) {
      if sensorId !in failed' {
        var errorMsg := ProcessError(entry.value.sp1, entry.value.sp2);
        failed' := failed'[sensorId := errorMsg];
      }
    } else if IsOk(entry.value) {
      if sensorId !in failed' {
        if sensorId in success' {
          success' := success'[sensorId := success'[sensorId] + 1];
        } else {
          success' := success'[sensorId := 1];
        }
      }
    }
  }
}
