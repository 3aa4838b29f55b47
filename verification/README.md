# Log processing of the device test pipeline, in Dafny

The repository has two copies of a small log-processing pipeline:
`logging_task/do_it_yourself.py` and `logging/do_it_yourself.py`.
Each copy reads a log file line by line and does the following:

- It parses every line that carries a "BIG" message. A line is kept when the text after its first `"> "` marker has its surrounding whitespace and quotes removed and then splits on `;` into at least 18 fields whose first field, trimmed, is `"BIG"`. The quotes are optional: an unquoted message is read the same way.
- It counts the healthy reports (state `"02"`) of each sensor.
- It decodes the first fault report (state `"DD"`) of each sensor into one of four messages. The two status fields `S_P_1` and `S_P_2` give a six-digit window of three pairs. The bit of weight 8 of each pair is a flag for battery, temperature or threshold, in that priority.
- It drops failed sensors from the healthy ones and returns the five-part summary.

This project models that core as follows:

- `PyStr` models the Python string operations the parser relies on (`strip`, `lstrip`, `in`, `split`, `upper`, `int`).
- `Binary` models `format(n, '08b')`.
- `LogLine` models the parser, `is_ok` and `is_failed`. They behave identically in both copies: the copies differ only in type annotations and in which exceptions the parser's `except` clause names, and no exception can occur there.
- `FaultDecoder` models the fault decoding as functions.
- `Aggregate` models the aggregation as a fold over the parsed lines.
- `LoggingTask` and `Logging` model the imperative code of each copy: the `process_error` loops and the `process_file` loops. Each method is proved to compute the specification functions, so the two copies are proved to agree on every input whose status windows are six ASCII digits.

All files are verified together:

    dafny verify wrappers.dfy pystr.dfy binary.dfy log_line.dfy fault_decoder.dfy aggregate.dfy logging_task.dfy logging.dfy

## Model

| member | source | states |
|---|---|---|
| PyStr.LStrip | logging_task/do_it_yourself.py:65 | `lstrip` drops exactly a leading run of the given characters: the result is a suffix, every dropped character is in the set, and the result does not start with one |
| PyStr.RStrip | logging_task/do_it_yourself.py:21 | the trailing counterpart: the result is a prefix, every dropped character is in the set, and the result does not end with one |
| PyStr.Strip | logging_task/do_it_yourself.py:21-30 | `strip` gives a text that neither starts nor ends with a stripped character, no longer than the original; a text that is already trimmed comes back unchanged |
| PyStr.StripInfix | logging_task/do_it_yourself.py:21-30 | `strip` removes characters of the set only at the two ends: its result is an infix of the text, and every character before or after that infix is in the set |
| PyStr.FindFrom | logging_task/do_it_yourself.py:21 | the result is the first index where the pattern occurs, or -1 exactly when it occurs nowhere |
| PyStr.FindContains | logging_task/do_it_yourself.py:18 | `"> " in line` holds exactly when the search finds the marker |
| PyStr.Split | logging_task/do_it_yourself.py:22 | `split` always yields at least one field |
| PyStr.SplitJoin | logging_task/do_it_yourself.py:22 | joining the fields of `split` gives the text back, and no field holds the separator |
| PyStr.JoinSplit | logging_task/do_it_yourself.py:22 | splitting the join of separator-free fields gives the fields back |
| PyStr.SplitCount | logging_task/do_it_yourself.py:22-23 | `split` yields one more field than the text has separators |
| PyStr.Upper | logging_task/do_it_yourself.py:27 | `upper` keeps the length and maps every character on its own |
| PyStr.UpperIdempotent | logging_task/do_it_yourself.py:27 | upper-casing twice is upper-casing once |
| PyStr.DigitsValue | logging_task/do_it_yourself.py:74 | `int` of a string of `k` ASCII digits is a number below 10^k |
| PyStr.TwoDigits | logging_task/do_it_yourself.py:73-74 | `int` of a two-digit pair is ten times its first digit plus its second, below 100 |
| Binary.Bits | logging/do_it_yourself.py:75-77 | the rendering has exactly the requested width, and every character is '0' or '1' |
| Binary.Format08b | logging/do_it_yourself.py:75-77 | `format(n, '08b')` of a number below 256 has exactly eight characters |
| Binary.BitsValue | logging/do_it_yourself.py:75-77 | a wide enough binary rendering reads back as the number rendered |
| Binary.Format08bValue | logging/do_it_yourself.py:75-77 | `format(n, '08b')` is eight characters long and reads back as `n` for every `n < 256` |
| Binary.BitsAt | logging/do_it_yourself.py:78-80 | the character at a given index of the rendering is the bit of the matching weight |
| Binary.Format08bIndex4 | logging/do_it_yourself.py:78-80 | index 4 of `format(n, '08b')` is '1' exactly when the bit of weight 8 of `n` is set |
| LogLine.ParseLogLine | logging_task/do_it_yourself.py:18-33 | a line without the marker is rejected, and an accepted record has an upper-case sensor id |
| LogLine.IsOk | logging_task/do_it_yourself.py:36-38 | `is_ok` holds for state "02"; its contract only states the sanity fact that such a record is never in the fault state "DD" |
| LogLine.IsFailed | logging_task/do_it_yourself.py:41-43 | `is_failed` holds for state "DD"; its contract only states the sanity fact that such a record is never in the healthy state "02" |
| LogLine.ParseFields | logging_task/do_it_yourself.py:22-31 | the split message yields a record exactly when it has at least 18 fields and its first field, trimmed, is "BIG"; the sensor id of a record is upper case |
| LogLine.ParseRejects | logging/do_it_yourself.py:17-25 | a line is rejected exactly when it has no marker, its message has fewer than 17 separators, or its trimmed first field is not "BIG" |
| LogLine.ParsedFieldsClean | logging/do_it_yourself.py:26-30 | the four extracted values are trimmed and free of separators |
| LogLine.ParseFirstMarker | logging/do_it_yourself.py:20 | only the text after the first marker matters; what precedes it is ignored |
| LogLine.ParseAccepts | logging/do_it_yourself.py:20-30 | a quoted message of at least 18 separator-free fields that starts with "BIG" parses into fields 2 (upper-cased), 6 and 15 and the second-to-last field, each trimmed |
| LogLine.UnquoteMessage | logging/do_it_yourself.py:20 | stripping whitespace and then quotes from a quoted message gives the message back |
| LogLine.ExampleLine | logging/do_it_yourself.py:17-30 | a concrete quoted line parses into sensor "AB" with S_P_1 "12", S_P_2 "03" and state "02" |
| FaultDecoder.MessageFaithful | logging_task/do_it_yourself.py:67-76 | about `Message`, the text of each outcome: each outcome has its own message, and each message is one of the four fixed texts |
| FaultDecoder.ZFill | logging_task/do_it_yourself.py:66 | `zfill(6)` gives at least six characters |
| FaultDecoder.Combined | logging_task/do_it_yourself.py:64-65 | `sp1[:-1] + sp2.lstrip("-")` keeps `sp1` without its last character as its prefix, adds at most `|sp2|` characters, and the added part does not start with '-' |
| FaultDecoder.CombinedKeepsRest | logging_task/do_it_yourself.py:64-65 | the part appended to `sp1[:-1]` is `sp2` with exactly its leading run of '-' removed, and nothing else of `sp2` dropped |
| FaultDecoder.Window | logging_task/do_it_yourself.py:64-66 | the combined status text is cut or padded to exactly six characters |
| FaultDecoder.PairValue | logging_task/do_it_yourself.py:73-74 | each pair of the window is a number below 100 |
| FaultDecoder.Decode | logging_task/do_it_yourself.py:62-63 | an empty status field gives the unknown fault |
| FaultDecoder.PairBit | logging_task/do_it_yourself.py:73-74 | index 4 of `format(int(pair), '08b')` is '1' exactly when the pair's flag is set |
| FaultDecoder.FirstFlag | logging_task/do_it_yourself.py:67-75 | when pair `i` is the first with its flag set, the result is the message at position `i` of the error list |
| FaultDecoder.Reason | logging_task/do_it_yourself.py:72-76 | each outcome holds exactly when its pair is the first with the flag set; with no flag set the fault is unknown |
| FaultDecoder.BatteryHidesLaterPairs | logging/do_it_yourself.py:81-82 | with the battery flag set, the later pairs never matter |
| FaultDecoder.TemperatureHidesThreshold | logging/do_it_yourself.py:83-84 | with the battery flag clear and the temperature flag set, the third pair never matters |
| FaultDecoder.ChecksumIgnored | logging_task/do_it_yourself.py:64 | the last character of S_P_1 never changes whether the input decodes, nor what it decodes to |
| FaultDecoder.MinusIgnored | logging_task/do_it_yourself.py:65 | a leading minus sign on S_P_2 never changes whether the input decodes, nor what it decodes to |
| FaultDecoder.WindowOfDigits | logging/do_it_yourself.py:66-71 | for an all-digit combined text, the window is that text right-aligned behind zeros, or its first six characters |
| FaultDecoder.ZerosKeepValue | logging_task/do_it_yourself.py:66 | zero padding keeps a digit string numeric and keeps its value |
| FaultDecoder.ExampleTemperature | logging_task/do_it_yourself.py:62-76 | S_P_1 "99" with S_P_2 "-50" gives window "000950" and a temperature fault |
| Aggregate.Fold | logging_task/do_it_yourself.py:97-111 | after the loop, the failed dictionary holds exactly the sensors that sent a "DD" record |
| Aggregate.FoldCounts | logging_task/do_it_yourself.py:106-111 | before cleanup, a sensor that never failed is in the healthy dictionary exactly when it sent a "02" record, with the count of those records |
| Aggregate.HealthyCounts | logging_task/do_it_yourself.py:106-115 | after cleanup, the healthy sensors are exactly those that sent "02" and never "DD", each with its count of "02" records, at least 1 |
| Aggregate.Step | logging_task/do_it_yourself.py:98-111 | after one pass of the loop body on a "DD" record, its sensor is in the failed dictionary |
| Aggregate.Finish | logging_task/do_it_yourself.py:113-118 | after cleanup no sensor is both healthy and failed, the failed dictionary is passed through, the counts are the sizes of the two dictionaries, and all_devices is their sum |
| Aggregate.Summarize | logging_task/do_it_yourself.py:92-118 | the returned failed sensors are exactly those that sent a "DD" record |
| Aggregate.FoldNext | logging_task/do_it_yourself.py:97-111 | the loop's dictionaries after line `i` are one step on from those before it |
| Aggregate.StepKeepsFailed | logging_task/do_it_yourself.py:102-105 | one loop step never changes or removes an entry of the failed dictionary |
| Aggregate.StepRecordsFault | logging_task/do_it_yourself.py:102-105 | the first "DD" record of a sensor records the message decoded from it |
| Aggregate.FirstFaultWins | logging_task/do_it_yourself.py:102-105 | the message of a failed sensor is decoded from its first "DD" record |
| Aggregate.FaultHasFirst | logging/do_it_yourself.py:109-112 | every failed sensor has a first "DD" record |
| Aggregate.FailedAreFirstFaults | logging/do_it_yourself.py:109-112 | every entry of the returned failed dictionary is the message decoded from its sensor's first "DD" record |
| Aggregate.FaultIsFinal | logging/do_it_yourself.py:109-118 | later lines never change the message of a sensor that has already failed |
| Aggregate.OkAfterFaultIgnored | logging_task/do_it_yourself.py:106-107 | a "02" record of an already failed sensor changes nothing |
| Aggregate.LaterFaultIgnored | logging_task/do_it_yourself.py:102-104 | a later "DD" record of an already failed sensor changes neither dictionary |
| Aggregate.OtherLinesIgnored | logging_task/do_it_yourself.py:98-106 | a rejected line, or a record whose state is neither "02" nor "DD", changes nothing |
| Aggregate.OkIdsCount | logging/do_it_yourself.py:113-118 | a sensor sent a "02" record exactly when its count is positive |
| Aggregate.SummaryCounts | logging/do_it_yourself.py:120-125 | no sensor is both healthy and failed; the three counts are the sizes of the dictionaries; all_devices is the number of sensors that sent "02" or "DD" |
| Aggregate.RemoveFailed | logging_task/do_it_yourself.py:113-115 | the cleanup loop removes exactly the failed sensors from the healthy dictionary |
| LoggingTask.ProcessError | logging_task/do_it_yourself.py:46-76 | the result is the message of the decoded fault, always one of the four messages |
| LoggingTask.CheckPairs | logging_task/do_it_yourself.py:67-76 | the `for` loop with its early return gives the message of the first pair whose flag is set, or the unknown fault |
| LoggingTask.ApplyRecord | logging_task/do_it_yourself.py:98-111 | one pass of the loop body is one step of the fold |
| LoggingTask.ProcessFile | logging_task/do_it_yourself.py:92-118 | the loop, the cleanup and the returned tuple give `Summarize(ParseAll(lines))`, the summary of `parse_log_line` of each line in order |
| Logging.PadOrTrim | logging/do_it_yourself.py:66-71 | the padding loop gives six characters: the text behind zeros, or its first six characters |
| Logging.WindowsAgree | logging/do_it_yourself.py:66-71 | this padding and `zfill(6)[:6]` accept the same all-digit windows and give the same window |
| Logging.ProcessError | logging/do_it_yourself.py:45-88 | the unrolled pairs and the if/elif chain give the message of the decoded fault, the same as the other copy |
| Logging.ApplyRecord | logging/do_it_yourself.py:105-118 | one pass of the loop body is one step of the fold |
| Logging.ProcessFile | logging/do_it_yourself.py:100-125 | the loop, the cleanup and the returned tuple give `Summarize(ParseAll(lines))`, the summary of `parse_log_line` of each line in order, the same as the other copy |

## Notes on the code

- `strip("'")` removes every layer of quotes around the message, not just one (`ParseLogLine`, `UnquoteMessage`).
- `int` raises on a pair that is not numeric, and nothing in `process_file` catches the error. The model makes digit-only windows a precondition (`Decodable`, `Decodes`).
- An empty field 2 is accepted as a sensor id, and the model accepts it too.

## Left out

- File access: `os.path.exists`, `open`, and the `OSError` path that prints and returns `None` are not modelled. `ProcessFile` takes the lines of the file as a sequence.
- `print_results`, `main` and the timing code are not modelled. They only print, read the clock, and sort the healthy counts for display.
- Dictionary insertion order is not modelled: dictionaries are maps, so the order in which `print_results` would list failed sensors is not captured.
- The `except` clauses of `parse_log_line` are not modelled. Every index it uses is guarded by the length check, and every value is a string, so neither `IndexError` nor `AttributeError` can occur. `ParseLogLine` is total.
- LoggingTask.CheckPairs: requires every pair of the window to be ASCII digits. The source's loop returns early, so a non-numeric pair after the first set flag never reaches `int` (a window such as "08xxxx" gives the battery fault). Inputs of that kind are not covered.
- LoggingTask.ApplyRecord: requires (`StepDecodes`) that the first "DD" record of a sensor has a window of six ASCII digits. Pairs that `int` also accepts, with a sign or surrounding whitespace, and the early return of the pair loop are not covered.
- Logging.ApplyRecord: requires (`StepDecodes`) that the first "DD" record of a sensor has a window of six ASCII digits. Pairs that `int` also accepts, with a sign or surrounding whitespace, are not covered.
- LoggingTask.ProcessError: requires every pair of the window to be ASCII digits. The source's loop returns early, so a non-numeric pair after the first set flag never reaches `int` there. Inputs of that kind are not covered.
- LoggingTask.ProcessError, Logging.ProcessError, LoggingTask.ProcessFile, Logging.ProcessFile: Python's `int` also accepts a sign, surrounding whitespace and non-ASCII digits. Those inputs are excluded by the digit-only precondition rather than modelled. A negative pair would also render with a minus sign under `format(n, '08b')`.
- PyStr.Upper: upper-cases ASCII letters only. Python's `upper` also maps non-ASCII letters, and some of them to more than one character.
- `testing/test_name.py` tests a different module (a QR scanner). That module is not part of this model.
