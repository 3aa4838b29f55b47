/**
 * The imperative parts of logging/do_it_yourself.py, the explicit-step copy of the
 * pipeline: `process_error` pads with a `while` loop that prepends "0" and checks the three
 * pairs one by one; `process_file` runs the same record loop and cleanup as the other copy.
 * Both copies are proved to compute the same functions (FaultDecoder.Decode and
 * Aggregate.Summarize).
 */
module Logging {
  import opened Wrappers
  import opened PyStr
  import opened Binary
  import opened LogLine
  import opened FaultDecoder
  import opened Aggregate

  /**
   * The padding of `process_error`: "0" is prepended until the text is six characters long,
   * and a longer text is cut to its first six characters.
   */
  method PadOrTrim(s: string) returns (combined: string)
    ensures |combined| == Width
    ensures |s| <= Width ==> combined == Zeros(Width - |s|) + s
    ensures |s| > Width ==> combined == s[..Width]
  {
    combined := s;
    if |combined| < 6 {
      while |combined| < 6
        invariant |s| <= |combined| <= Width
        invariant combined == Zeros(|combined| - |s|) + s
        decreases Width - |combined|
      {
        assert "0" + Zeros(|combined| - |s|) == Zeros(|combined| + 1 - |s|);
        combined := "0" + combined;
      }
    } else if |combined| > 6 {
      combined := combined[..6];
    } else {
      assert Zeros(0) + s == s;
    }
  }

  /**
   * The padding of this copy and `zfill(6)[:6]` of the other one accept the same texts as
   * all-digit windows, and on those they give the same window: they differ only when a
   * sign leads a short text, and then neither window is numeric.
   */
  lemma WindowsAgree(s: string)
    ensures var p := if |s| <= Width then Zeros(Width - |s|) + s else s[..Width];
      && (AllDigits(p) <==> AllDigits(ZFill(s, Width)[..Width]))
      && (AllDigits(p) ==> p == ZFill(s, Width)[..Width])
  {
    var p := if |s| <= Width then Zeros(Width - |s|) + s else s[..Width];
    var z := ZFill(s, Width)[..Width];
    if |s| >= Width {
      if |s| == Width {
        assert Zeros(0) + s == s == s[..Width];
      }
      assert p == z;
    } else if s != [] && IsSign(s[0]) {
      assert p[Width - |s|] == s[0];
      assert z[0] == s[0];
      assert !IsDigit(s[0]);
    } else {
      assert |Zeros(Width - |s|) + s| == Width;
      assert p == z;
    }
  }

  /**
   * `process_error(sp1, sp2)`: the padding loop, then the three pairs rendered with
   * `format(n, '08b')` and an if/elif chain on their bits at index 4.
   */
  method ProcessError(sp1: string, sp2: string) returns (msg: string)
    requires Decodable(sp1, sp2)
    ensures msg == Message(Decode(sp1, sp2))
  {
    if sp1 == "" || sp2 == "" {
      return "Unknown device error";
    }
    var sp1Processed := sp1[..|sp1| - 1];
    var sp2Processed := LStrip(sp2, {'-'});
    var combined := PadOrTrim(sp1Processed + sp2Processed);
    WindowsAgree(sp1Processed + sp2Processed);
    assert combined == Window(sp1, sp2);
    var pair1 := combined[0..2];
    var pair2 := combined[2..4];
    var pair3 := combined[4..6];
    PairBit(combined, 0);
    PairBit(combined, 1);
    PairBit(combined, 2);
    var b1 := Format08b(DigitsValue(pair1));
    var b2 := Format08b(DigitsValue(pair2));
    var b3 := Format08b(DigitsValue(pair3));
    var bit1 := b1[4];
    var bit2 := b2[4];
    var bit3 := b3[4];
    if bit1 == '1' {
      msg := "Battery device error";
    } else if bit2 == '1' {
      msg := "Temperature device error";
    } else if bit3 == '1' {
      msg := "Threshold central error";
    } else {
      msg := "Unknown device error";
    }
  }

  /** The body of the record loop of `process_file`, applied to one parsed line. */
  method ApplyRecord(success: map<string, int>, failed: map<string, string>, entry: Option<Entry>)
    returns (success': map<string, int>, failed': map<string, string>)
    requires StepDecodes(Tally(success, failed), entry)
    ensures Tally(success', failed') == Step(Tally(success, failed), entry)
  {
    success', failed' := success, failed;
    if entry.None? {
      return;
    }
    var sensorId := entry.value.sensorId;
    if IsFailed(entry.value) {
      if sensorId !in failed' {
        var errorMsg := ProcessError(entry.value.sp1, entry.value.sp2);
        failed' := failed'[sensorId := errorMsg];
      }
    } else if IsOk(entry.value) {
      if sensorId !in failed' {
        if sensorId in success' {
          success' := success'[sensorId := success'[sensorId] + 1];
        } else {
          success' := success'[sensorId := 1];
        }
      }
    }
  }

  /**
   * `process_file` on a file whose lines are `lines`: the loop over the parsed records, the
   * cleanup loop and the returned tuple, equal to what the other copy returns.
   */
  method ProcessFile(lines: seq<string>) returns (summary: Summary)
    requires Decodes(ParseAll(lines))
    ensures summary == Summarize(ParseAll(lines))
  {
    ghost var recs := ParseAll(lines);
    var successMessages: map<string, int> := map[];
    var failedSensors: map<string, string> := map[];
    for i := 0 to |lines|
      invariant Decodes(recs[..i])
      invariant Tally(successMessages, failedSensors) == Fold(recs[..i])
    {
      FoldNext(recs, i);
      var entry := ParseLogLine(lines[i]);
      successMessages, failedSensors := ApplyRecord(successMessages, failedSensors, entry);
    }
    assert recs[..|lines|] == recs;
    successMessages := RemoveFailed(successMessages, failedSensors);
    var allDevices := |successMessages| + |failedSensors|;
    return Summary(allDevices, |successMessages|, |failedSensors|, failedSensors, successMessages);
  }
}
