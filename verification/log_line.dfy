/**
 * `parse_log_line`, `is_ok` and `is_failed`, which read identically in both copies of the
 * pipeline: a log line is kept when the text after its first "> " marker, with surrounding
 * whitespace and then every surrounding quote removed, splits on ';' into at least 18
 * fields whose first (trimmed) field is the handler tag "BIG".
 */
module LogLine {
  import opened Wrappers
  import opened PyStr

  /** The dictionary `parse_log_line` returns. */
  datatype Entry = Entry(sensorId: string, sp1: string, sp2: string, state: string)

  const Marker: string := "> "
  const Handler: string := "BIG"
  const MinFields: nat := 18
  const Quote: set<char> := {'\''}

  /** `line.split("> ", 1)[1]`: the text after the first marker. */
  function AfterMarker(line: string): string
    requires Find(line, Marker) != -1
  {
    line[Find(line, Marker) + |Marker|..]
  }

  /** The `;`-separated message: the text after the first marker, stripped of whitespace, then of quotes. */
  function Payload(line: string): string
    requires Find(line, Marker) != -1
  {
    Strip(Strip(AfterMarker(line), Whitespace), Quote)
  }

  /** `parse_log_line(line)`; it cannot raise, so every line maps to a value. */
  function ParseLogLine(line: string): (r: Option<Entry>)
    ensures !Contains(line, Marker) ==> r == None
    ensures r.Some? ==> Upper(r.value.sensorId) == r.value.sensorId
  {
    FindContains(line, Marker);
    if Find(line, Marker) == -1 then None else ParseFields(Split(Payload(line), ';'))
  }

  /**
   * The field checks and extraction of `parse_log_line`, once the message is split: at least
   * 18 fields, the first of which is "BIG" once trimmed.
   */
  function ParseFields(parts: seq<string>): (r: Option<Entry>)
    ensures r.Some? <==> |parts| >= MinFields && Strip(parts[0], Whitespace) == Handler
    ensures r.Some? ==> Upper(r.value.sensorId) == r.value.sensorId
  {
    if |parts| < MinFields then None
    else if Strip(parts[0], Whitespace) != Handler then None
    else
      UpperIdempotent(Strip(parts[2], Whitespace));
      Some(Entry(Upper(Strip(parts[2], Whitespace)), Strip(parts[6], Whitespace),
                 Strip(parts[15], Whitespace), Strip(parts[|parts| - 2], Whitespace)))
  }

  /** `is_ok(entry)`: the device reported state "02"; such a record is never a fault report. */
  predicate IsOk(e: Entry)
    ensures IsOk(e) ==> e.state != "DD"
  {
    e.state == "02"
  }

  /** `is_failed(entry)`: the device reported state "DD"; such a record is never a healthy report. */
  predicate IsFailed(e: Entry)
    ensures IsFailed(e) ==> e.state != "02"
  {
    e.state == "DD"
  }

  /**
   * A line is rejected exactly when it has no marker, its message holds fewer than 17
   * separators (so fewer than 18 fields), or its first field, trimmed, is not "BIG".
   */
  lemma ParseRejects(line: string)
    ensures ParseLogLine(line).None? <==>
      || !Contains(line, Marker)
      || Count(Payload(line), ';') < MinFields - 1
      || Strip(Split(Payload(line), ';')[0], Whitespace) != Handler
  {
    FindContains(line, Marker);
    if Contains(line, Marker) {
      SplitCount(Payload(line), ';');
    }
  }

  /** Every extracted value is trimmed and free of separators; the sensor id is upper case. */
  lemma ParsedFieldsClean(line: string)
    requires ParseLogLine(line).Some?
    ensures var e := ParseLogLine(line).value;
      && Stripped(e.sensorId, Whitespace) && Stripped(e.sp1, Whitespace)
      && Stripped(e.sp2, Whitespace) && Stripped(e.state, Whitespace)
      && ';' !in e.sensorId && ';' !in e.sp1 && ';' !in e.sp2 && ';' !in e.state
  {
    FindContains(line, Marker);
    var parts := Split(Payload(line), ';');
    SplitJoin(Payload(line), ';');
    FieldsClean(parts);
  }

  lemma FieldsClean(parts: seq<string>)
    requires NoSep(parts, ';') && ParseFields(parts).Some?
    ensures var e := ParseFields(parts).value;
      && Stripped(e.sensorId, Whitespace) && Stripped(e.sp1, Whitespace)
      && Stripped(e.sp2, Whitespace) && Stripped(e.state, Whitespace)
      && ';' !in e.sensorId && ';' !in e.sp1 && ';' !in e.sp2 && ';' !in e.state
  {
    var n := |parts|;
    var e := ParseFields(parts).value;
    StripSub(parts[2]);
    StripSub(parts[6]);
    StripSub(parts[15]);
    StripSub(parts[n - 2]);
    UpperKeeps(Strip(parts[2], Whitespace));
  }

  /** Upper-casing keeps a string trimmed and free of separators. */
  lemma UpperKeeps(s: string)
    requires Stripped(s, Whitespace) && ';' !in s
    ensures Stripped(Upper(s), Whitespace) && ';' !in Upper(s)
  {
    if s != [] {
      UpperCharKeeps(s[0]);
      UpperCharKeeps(s[|s| - 1]);
    }
    forall k | 0 <= k < |s| ensures Upper(s)[k] != ';' {
      assert s[k] != ';';
    }
  }

  /** Upper-casing a character never makes it whitespace or a separator. */
  lemma UpperCharKeeps(c: char)
    ensures c !in Whitespace ==> UpperChar(c) !in Whitespace
    ensures c != ';' ==> UpperChar(c) != ';'
  {
    if 'a' <= c <= 'z' {
      assert 'A' <= UpperChar(c) <= 'Z';
    }
  }

  /** A stripped string's characters come from the original. */
  lemma StripSub(s: string)
    ensures forall c :: c in Strip(s, Whitespace) ==> c in s
  {
    var l := LStrip(s, Whitespace);
    assert forall c :: c in RStrip(l, Whitespace) ==> c in l;
  }

  /** Only the text after the FIRST marker matters: whatever precedes it is ignored. */
  lemma ParseFirstMarker(pre: string, rest: string)
    requires !Contains(pre, Marker)
    ensures ParseLogLine(pre + Marker + rest) == ParseLogLine(Marker + rest)
  {
    var line := pre + Marker + rest;
    FindAfter(pre, rest);
    FindAfter([], rest);
    assert [] + Marker + rest == Marker + rest;
    assert AfterMarker(line) == rest;
    assert AfterMarker(Marker + rest) == rest;
  }

  /** The first marker of `pre + "> " + rest` is the one after `pre` when `pre` holds none. */
  lemma FindAfter(pre: string, rest: string)
    requires !Contains(pre, Marker)
    ensures Find(pre + Marker + rest, Marker) == |pre|
  {
    var line := pre + Marker + rest;
    assert OccursAt(line, Marker, |pre|) by {
      assert line[|pre|..|pre| + 2] == Marker;
    }
    forall j | 0 <= j < |pre| ensures !OccursAt(line, Marker, j) {
      if j + 2 <= |pre| {
        assert line[j..j + 2] == pre[j..j + 2];
        assert !OccursAt(pre, Marker, j);
      } else {
        assert line[j + 1] == '>';
      }
    }
  }

  /** `sep.join(fields)` ends with the separator followed by the last field. */
  lemma {:induction false} JoinLast(fields: seq<string>, sep: char)
    requires |fields| >= 2
    ensures Join(fields, sep) == Join(fields[..|fields| - 1], sep) + [sep] + fields[|fields| - 1]
  {
    if |fields| > 2 {
      JoinLast(fields[1..], sep);
      assert fields[1..][..|fields| - 2] == fields[..|fields| - 1][1..];
    }
  }

  /** Stripping whitespace then quotes from a quoted message gives the message back. */
  lemma UnquoteMessage(j: string)
    requires j != [] && j[0] !in Quote && j[|j| - 1] !in Quote
    ensures Strip(Strip("'" + j + "'", Whitespace), Quote) == j
  {
    var q := "'" + j + "'";
    assert '\'' !in Whitespace;
    assert Stripped(q, Whitespace);
    assert Strip(q, Whitespace) == q;
    UnquoteOnly(j);
  }

  lemma UnquoteOnly(j: string)
    requires j != [] && j[0] !in Quote && j[|j| - 1] !in Quote
    ensures Strip("'" + j + "'", Quote) == j
  {
    var q := "'" + j + "'";
    var jq := j + "'";
    assert q[1..] == jq;
    assert LStrip(q, Quote) == jq;
    assert jq[..|j|] == j;
    assert RStrip(jq, Quote) == j;
  }

  /** `"BIG;...".split(';')` with the right shape passes the checks of `ParseFields`. */
  lemma FieldsAccepted(fields: seq<string>)
    requires |fields| >= MinFields && fields[0] == Handler
    ensures var n := |fields|;
      ParseFields(fields) ==
        Some(Entry(Upper(Strip(fields[2], Whitespace)), Strip(fields[6], Whitespace),
                   Strip(fields[15], Whitespace), Strip(fields[n - 2], Whitespace)))
  {
    assert Stripped(Handler, Whitespace);
  }

  /**
   * A well-formed quoted message after the marker parses: the record holds fields 2
   * (upper-cased), 6 and 15 and the second-to-last field, each trimmed.
   */
  lemma ParseAccepts(pre: string, fields: seq<string>)
    requires !Contains(pre, Marker)
    requires |fields| >= MinFields && NoSep(fields, ';') && fields[0] == Handler
    requires var last := fields[|fields| - 1]; last == [] || last[|last| - 1] != '\''
    ensures var n := |fields|;
      ParseLogLine(pre + Marker + "'" + Join(fields, ';') + "'") ==
        Some(Entry(Upper(Strip(fields[2], Whitespace)), Strip(fields[6], Whitespace),
                   Strip(fields[15], Whitespace), Strip(fields[n - 2], Whitespace)))
  {
    var j := Join(fields, ';');
    var n := |fields|;
    var line := pre + Marker + ("'" + j + "'");
    assert pre + Marker + "'" + j + "'" == line;
    FindAfter(pre, "'" + j + "'");
    assert AfterMarker(line) == "'" + j + "'";
    // The message starts with "BIG" and ends with the last field or a separator.
    JoinLast(fields, ';');
    assert j[0] == 'B' by {
      assert j == Handler + [';'] + Join(fields[1..], ';');
    }
    assert j[|j| - 1] != '\'' by {
      var last := fields[n - 1];
      if last == [] { assert j[|j| - 1] == ';'; } else { assert j[|j| - 1] == last[|last| - 1]; }
    }
    UnquoteMessage(j);
    assert Payload(line) == j;
    JoinSplit(fields, ';');
    FieldsAccepted(fields);
  }

  /** The fields of a sample record: handler, sensor "ab", S_P_1 "12", S_P_2 "03", state "02". */
  const SampleFields: seq<string> :=
    ["BIG", "x", "ab", "x", "x", "x", "12", "x", "x", "x", "x", "x", "x", "x", "x", "03", "x", "02", "x"]

  /** The sample line parses into sensor "AB" (upper-cased) with S_P_1 "12", S_P_2 "03" and state "02". */
  lemma ExampleLine()
    ensures ParseLogLine(Marker + "'" + Join(SampleFields, ';') + "'") == Some(Entry("AB", "12", "03", "02"))
  {
    var f := SampleFields;
    SampleShape();
    ParseAccepts([], f);
    assert [] + Marker == Marker;
    SampleValues();
  }

  lemma SampleShape()
    ensures |SampleFields| == 19 && NoSep(SampleFields, ';') && SampleFields[0] == Handler
    ensures SampleFields[2] == "ab" && SampleFields[6] == "12" && SampleFields[15] == "03"
    ensures SampleFields[17] == "02" && SampleFields[18] == "x"
    ensures !Contains([], Marker)
  {
  }

  lemma SampleValues()
    ensures Upper(Strip("ab", Whitespace)) == "AB"
    ensures Strip("12", Whitespace) == "12" && Strip("03", Whitespace) == "03" && Strip("02", Whitespace) == "02"
  {
    SampleSensor();
    SampleStatus();
  }

  lemma SampleSensor()
    ensures Upper(Strip("ab", Whitespace)) == "AB"
  {
    Unpadded('a', 'b');
    UpperSample();
  }

  lemma SampleStatus()
    ensures Strip("12", Whitespace) == "12" && Strip("03", Whitespace) == "03" && Strip("02", Whitespace) == "02"
  {
    Unpadded('1', '2');
    Unpadded('0', '3');
    Unpadded('0', '2');
  }

  lemma UpperSample()
    ensures Upper("ab") == "AB"
  {
    assert Upper("ab")[0] == 'A' && Upper("ab")[1] == 'B';
  }

  /** A two-character text of letters and digits has nothing to strip. */
  lemma Unpadded(a: char, b: char)
    requires IsDigit(a) || 'a' <= a <= 'z'
    requires IsDigit(b) || 'a' <= b <= 'z'
    ensures Strip([a, b], Whitespace) == [a, b]
  {
    assert a !in Whitespace && b !in Whitespace;
  }
}
