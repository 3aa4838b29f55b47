/**
 * The aggregation of `process_file` as a function of the parsed records: a fold of one loop
 * step over the records into the two dictionaries `success_messages` and `failed_sensors`,
 * then the cleanup that drops failed sensors from the healthy ones. The loop of each copy
 * (modules LoggingTask and Logging) is proved to compute `Summarize(recs)`.
 */
module Aggregate {
  import opened Wrappers
  import opened LogLine
  import opened FaultDecoder

  /** The two dictionaries of the loop: healthy sensor -> count of "02" records, failed sensor -> message. */
  datatype Tally = Tally(success: map<string, int>, failed: map<string, string>)

  /** `(all_devices, successful_devices, failed_devices, failed_sensors, success_messages)`. */
  datatype Summary = Summary(
    allDevices: int,
    successfulDevices: int,
    failedDevices: int,
    failedSensors: map<string, string>,
    successMessages: map<string, int>)

  /** What `parse_log_line` gives for each line of the file, in order. */
  function ParseAll(lines: seq<string>): seq<Option<Entry>>
  {
    seq(|lines|, i requires 0 <= i < |lines| => ParseLogLine(lines[i]))
  }

  /** A parsed record whose state is "DD". */
  predicate FaultLine(r: Option<Entry>)
  {
    r.Some? && IsFailed(r.value)
  }

  /** A parsed record whose state is "02". */
  predicate OkLine(r: Option<Entry>)
  {
    r.Some? && IsOk(r.value)
  }

  function SensorOf(r: Option<Entry>): string
    requires r.Some?
  {
    r.value.sensorId
  }

  /** The sensors that sent at least one "DD" record among `recs`. */
  function FailedIds(recs: seq<Option<Entry>>): set<string>
  {
    if recs == [] then {}
    else
      var last := recs[|recs| - 1];
      FailedIds(recs[..|recs| - 1]) + (if FaultLine(last) then {SensorOf(last)} else {})
  }

  /** The number of "02" records of sensor `id` among `recs`. */
  function CountOk(recs: seq<Option<Entry>>, id: string): nat
  {
    if recs == [] then 0
    else
      var last := recs[|recs| - 1];
      CountOk(recs[..|recs| - 1], id) + (if OkLine(last) && SensorOf(last) == id then 1 else 0)
  }

  /** The sensors that sent at least one "02" record among `recs`. */
  function OkIds(recs: seq<Option<Entry>>): set<string>
  {
    if recs == [] then {}
    else
      var last := recs[|recs| - 1];
      OkIds(recs[..|recs| - 1]) + (if OkLine(last) then {SensorOf(last)} else {})
  }

  /** Line `i` holds the first "DD" record of its sensor: the one `process_error` decodes. */
  predicate FirstFault(recs: seq<Option<Entry>>, i: nat)
    requires i < |recs|
  {
    FaultLine(recs[i]) && SensorOf(recs[i]) !in FailedIds(recs[..i])
  }

  /** `process_error` does not raise on record `i` (it is called on first faults only). */
  predicate DecodesAt(recs: seq<Option<Entry>>, i: nat)
    requires i < |recs|
  {
    FirstFault(recs, i) ==>
      var e := recs[i].value;
      Decodable(e.sp1, e.sp2)
  }

  /** The loop over `recs` runs without `process_error` raising. */
  predicate Decodes(recs: seq<Option<Entry>>)
  {
    forall i :: 0 <= i < |recs| ==> DecodesAt(recs, i)
  }

  lemma DecodesPrefix(recs: seq<Option<Entry>>, k: nat)
    requires Decodes(recs) && k <= |recs|
    ensures Decodes(recs[..k])
  {
    forall i | 0 <= i < k ensures DecodesAt(recs[..k], i) {
      assert recs[..k][..i] == recs[..i];
      assert DecodesAt(recs, i);
    }
  }

  /** The one-step condition: a record that starts a new fault is decodable. */
  predicate StepDecodes(t: Tally, rec: Option<Entry>)
  {
    FaultLine(rec) && SensorOf(rec) !in t.failed ==>
      var e := rec.value;
      Decodable(e.sp1, e.sp2)
  }

  /**
   * One iteration of the loop of `process_file` on one record: after a "DD" record its sensor
   * is in the failed dictionary.
   */
  function Step(t: Tally, rec: Option<Entry>): (s: Tally)
    requires StepDecodes(t, rec)
    ensures FaultLine(rec) ==> SensorOf(rec) in s.failed
  {
    match rec
    case None => t
    case Some(e) =>
      if IsFailed(e) then
        if e.sensorId !in t.failed then Tally(t.success, t.failed[e.sensorId := Message(Decode(e.sp1, e.sp2))])
        else t
      else if IsOk(e) then
        if e.sensorId !in t.failed then
          Tally(t.success[e.sensorId := if e.sensorId in t.success then t.success[e.sensorId] + 1 else 1], t.failed)
        else t
      else t
  }

  /** The dictionaries after the loop has read `recs`; the failed ones are exactly the sensors that sent "DD". */
  function Fold(recs: seq<Option<Entry>>): (t: Tally)
    requires Decodes(recs)
    ensures t.failed.Keys == FailedIds(recs)
  {
    if recs == [] then Tally(map[], map[])
    else
      var n := |recs|;
      DecodesPrefix(recs, n - 1);
      var prev := Fold(recs[..n - 1]);
      assert DecodesAt(recs, n - 1);
      Step(prev, recs[n - 1])
  }

  /**
   * The cleanup loop and the tuple `process_file` returns: no sensor is both healthy and
   * failed, the counts are the sizes of the dictionaries, and all_devices is their sum.
   */
  function Finish(t: Tally): (s: Summary)
    ensures s.successMessages.Keys !! s.failedSensors.Keys
    ensures s.failedSensors == t.failed
    ensures s.successfulDevices == |s.successMessages| && s.failedDevices == |s.failedSensors|
    ensures s.allDevices == s.successfulDevices + s.failedDevices
  {
    var success := t.success - t.failed.Keys;
    Summary(|success| + |t.failed|, |success|, |t.failed|, t.failed, success)
  }

  /** What `process_file` returns for a file made of `recs`: the failed sensors are those that sent "DD". */
  function Summarize(recs: seq<Option<Entry>>): (s: Summary)
    requires Decodes(recs)
    ensures s.failedSensors.Keys == FailedIds(recs)
  {
    Finish(Fold(recs))
  }

  /** Before cleanup, a sensor that never failed has counted every one of its "02" records. */
  lemma {:induction false} FoldCounts(recs: seq<Option<Entry>>)
    requires Decodes(recs)
    ensures forall id :: id in Fold(recs).success ==> Fold(recs).success[id] >= 1
    ensures forall id :: id !in FailedIds(recs) ==>
      (id in Fold(recs).success <==> CountOk(recs, id) >= 1) &&
      (id in Fold(recs).success ==> Fold(recs).success[id] == CountOk(recs, id))
  {
    if recs != [] {
      var n := |recs|;
      DecodesPrefix(recs, n - 1);
      FoldCounts(recs[..n - 1]);
    }
  }

  /**
   * After cleanup the healthy sensors are exactly those that sent "02" and never "DD",
   * each with the number of its "02" records, which is at least 1.
   */
  lemma HealthyCounts(recs: seq<Option<Entry>>)
    requires Decodes(recs)
    ensures forall id :: id in Summarize(recs).successMessages <==>
      id !in FailedIds(recs) && CountOk(recs, id) >= 1
    ensures forall id :: id in Summarize(recs).successMessages ==>
      Summarize(recs).successMessages[id] == CountOk(recs, id) >= 1
  {
    FoldCounts(recs);
  }

  /** A step never changes or removes an entry of the failed dictionary. */
  lemma StepKeepsFailed(t: Tally, rec: Option<Entry>)
    requires StepDecodes(t, rec)
    ensures forall id :: id in t.failed ==> id in Step(t, rec).failed && Step(t, rec).failed[id] == t.failed[id]
  {
  }

  /** The failed sensor of a first "DD" record keeps the message decoded from that record. */
  lemma {:induction false} FirstFaultWins(recs: seq<Option<Entry>>, i: nat)
    requires Decodes(recs) && i < |recs| && FirstFault(recs, i)
    ensures var e := recs[i].value;
      DecodesAt(recs, i) &&
      e.sensorId in Fold(recs).failed &&
      Fold(recs).failed[e.sensorId] == Message(Decode(e.sp1, e.sp2))
  {
    var n := |recs|;
    assert DecodesAt(recs, i);
    DecodesPrefix(recs, n - 1);
    FoldLast(recs);
    var prev := Fold(recs[..n - 1]);
    if i < n - 1 {
      assert recs[..n - 1][..i] == recs[..i];
      assert recs[..n - 1][i] == recs[i];
      FirstFaultWins(recs[..n - 1], i);
      StepKeepsFailed(prev, recs[n - 1]);
    } else {
      assert recs[..n - 1] == recs[..i];
      StepRecordsFault(prev, recs[i]);
    }
  }

  /** The fold of a non-empty sequence is one step after the fold of all but its last record. */
  lemma FoldLast(recs: seq<Option<Entry>>)
    requires Decodes(recs) && recs != []
    ensures Decodes(recs[..|recs| - 1])
    ensures StepDecodes(Fold(recs[..|recs| - 1]), recs[|recs| - 1])
    ensures Fold(recs) == Step(Fold(recs[..|recs| - 1]), recs[|recs| - 1])
  {
    DecodesPrefix(recs, |recs| - 1);
    assert DecodesAt(recs, |recs| - 1);
  }

  /** The loop invariant of `process_file` carried over record `i`. */
  lemma FoldNext(recs: seq<Option<Entry>>, i: nat)
    requires Decodes(recs) && i < |recs|
    ensures Decodes(recs[..i]) && Decodes(recs[..i + 1])
    ensures StepDecodes(Fold(recs[..i]), recs[i])
    ensures Fold(recs[..i + 1]) == Step(Fold(recs[..i]), recs[i])
  {
    DecodesPrefix(recs, i + 1);
    assert recs[..i + 1][..i] == recs[..i] && recs[..i + 1][i] == recs[i];
    FoldLast(recs[..i + 1]);
  }

  /** A "DD" record of a sensor not yet failed records the message decoded from it. */
  lemma StepRecordsFault(t: Tally, rec: Option<Entry>)
    requires FaultLine(rec) && SensorOf(rec) !in t.failed && Decodable(rec.value.sp1, rec.value.sp2)
    ensures StepDecodes(t, rec)
    ensures SensorOf(rec) in Step(t, rec).failed
    ensures Step(t, rec).failed[SensorOf(rec)] == Message(Decode(rec.value.sp1, rec.value.sp2))
  {
  }

  /** Every failed sensor has a first "DD" record. */
  lemma {:induction false} FaultHasFirst(recs: seq<Option<Entry>>, id: string)
    requires id in FailedIds(recs)
    ensures exists i :: 0 <= i < |recs| && FirstFault(recs, i) && SensorOf(recs[i]) == id
  {
    var n := |recs|;
    var prefix := recs[..n - 1];
    if id in FailedIds(prefix) {
      FaultHasFirst(prefix, id);
      var i :| 0 <= i < |prefix| && FirstFault(prefix, i) && SensorOf(prefix[i]) == id;
      assert prefix[..i] == recs[..i];
      assert FirstFault(recs, i);
    } else {
      assert prefix == recs[..n - 1];
      assert FirstFault(recs, n - 1);
    }
  }

  /**
   * First fault wins: every entry of `failed_sensors` is the message decoded from its
   * sensor's first "DD" record.
   */
  lemma FailedAreFirstFaults(recs: seq<Option<Entry>>, id: string)
    requires Decodes(recs) && id in Summarize(recs).failedSensors
    ensures exists i ::
      (0 <= i < |recs| && FirstFault(recs, i) && SensorOf(recs[i]) == id &&
       Decodable(recs[i].value.sp1, recs[i].value.sp2) &&
       Summarize(recs).failedSensors[id] == Message(Decode(recs[i].value.sp1, recs[i].value.sp2)))
  {
    FaultHasFirst(recs, id);
    var i :| 0 <= i < |recs| && FirstFault(recs, i) && SensorOf(recs[i]) == id;
    FirstFaultWins(recs, i);
  }

  /** Later records never change the message of a sensor that has already failed. */
  lemma {:induction false} FaultIsFinal(recs: seq<Option<Entry>>, more: seq<Option<Entry>>)
    requires Decodes(recs + more)
    ensures Decodes(recs)
    ensures forall id :: id in Fold(recs).failed ==>
      id in Fold(recs + more).failed && Fold(recs + more).failed[id] == Fold(recs).failed[id]
  {
    assert (recs + more)[..|recs|] == recs;
    DecodesPrefix(recs + more, |recs|);
    if more != [] {
      var m := |more|;
      var all := recs + more;
      assert all[..|all| - 1] == recs + more[..m - 1];
      FoldLast(all);
      FaultIsFinal(recs, more[..m - 1]);
      StepKeepsFailed(Fold(all[..|all| - 1]), all[|all| - 1]);
    } else {
      assert recs + more == recs;
    }
  }

  /** A "02" record of a sensor that has already failed changes nothing. */
  lemma OkAfterFaultIgnored(recs: seq<Option<Entry>>, rec: Option<Entry>)
    requires Decodes(recs + [rec])
    requires OkLine(rec) && SensorOf(rec) in FailedIds(recs)
    ensures Decodes(recs) && Fold(recs + [rec]) == Fold(recs)
  {
    assert (recs + [rec])[..|recs|] == recs;
    DecodesPrefix(recs + [rec], |recs|);
  }

  /** A later "DD" record of a sensor that has already failed changes nothing. */
  lemma LaterFaultIgnored(recs: seq<Option<Entry>>, rec: Option<Entry>)
    requires Decodes(recs + [rec])
    requires FaultLine(rec) && SensorOf(rec) in FailedIds(recs)
    ensures Decodes(recs) && Fold(recs + [rec]) == Fold(recs)
  {
    assert (recs + [rec])[..|recs|] == recs;
    DecodesPrefix(recs + [rec], |recs|);
  }

  /** A record that is rejected, or whose state is neither "02" nor "DD", changes nothing. */
  lemma OtherLinesIgnored(recs: seq<Option<Entry>>, rec: Option<Entry>)
    requires Decodes(recs + [rec])
    requires !OkLine(rec) && !FaultLine(rec)
    ensures Decodes(recs) && Fold(recs + [rec]) == Fold(recs)
  {
    assert (recs + [rec])[..|recs|] == recs;
    DecodesPrefix(recs + [rec], |recs|);
  }

  /** A sensor has an "02" record exactly when its count is positive. */
  lemma {:induction false} OkIdsCount(recs: seq<Option<Entry>>, id: string)
    ensures id in OkIds(recs) <==> CountOk(recs, id) >= 1
  {
    if recs != [] {
      OkIdsCount(recs[..|recs| - 1], id);
    }
  }

  /**
   * The returned counts: no sensor is both healthy and failed, each count is the size of its
   * dictionary, and all_devices is the number of sensors that sent a "02" or a "DD" record.
   */
  lemma SummaryCounts(recs: seq<Option<Entry>>)
    requires Decodes(recs)
    ensures var s := Summarize(recs);
      && s.successMessages.Keys !! s.failedSensors.Keys
      && s.successfulDevices == |s.successMessages|
      && s.failedDevices == |s.failedSensors|
      && s.allDevices == s.successfulDevices + s.failedDevices
      && s.allDevices == |OkIds(recs) + FailedIds(recs)|
  {
    var s := Summarize(recs);
    HealthyCounts(recs);
    forall id ensures id in s.successMessages.Keys <==> id in OkIds(recs) - FailedIds(recs) {
      OkIdsCount(recs, id);
    }
    var ok := s.successMessages.Keys;
    var failed := s.failedSensors.Keys;
    assert ok == OkIds(recs) - FailedIds(recs);
    assert failed == FailedIds(recs);
    assert ok + failed == OkIds(recs) + FailedIds(recs);
    assert |ok + failed| == |ok| + |failed|;
    assert |s.successMessages| == |ok| && |s.failedSensors| == |failed|;
  }

  /** The cleanup loop of `process_file` (the same in both copies): every failed sensor is deleted from the healthy dictionary. */
  method RemoveFailed(success: map<string, int>, failed: map<string, string>)
    returns (cleaned: map<string, int>)
    ensures cleaned == success - failed.Keys
  {
    cleaned := success;
    var pending := failed.Keys;
    while pending != {}
      invariant pending <= failed.Keys
      invariant cleaned == success - (failed.Keys - pending)
      decreases pending
    {
      var sensor :| sensor in pending;
      if sensor in cleaned {
        cleaned := cleaned - {sensor};
      }
      pending := pending - {sensor};
    }
  }
}
