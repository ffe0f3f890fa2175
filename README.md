# log-trimmer, modelled in Dafny

log-trimmer removes unwanted time ranges from an ArduPilot DataFlash telemetry
log and writes the rest to a new file. This project models its core and proves
properties of that model:

- the interval algebra over removed time ranges (`core/segments.py`);
- the undo/redo history of edits (`core/history.py`);
- the readers that consume the decoded record stream (`core/dataflash.py`,
  `core/log_parser.py`, `core/log_reader.py`, `core/indexer.py`);
- the two exporters (`DataFlashExporter` in `core/dataflash.py` and in
  `core/exporter.py`).

The pymavlink decoder is abstracted. A decoded message (`Messages.Message`) is:

- a type tag;
- a map from attribute name to an optional number (a key that is present
  models `hasattr`, and a `None` value models an attribute set to `None`);
- the raw record bytes (`_buf`), if the decoder kept any.

A decoding pass (`Messages.Trace`) is the file position before the first read
and, for each read, the message and the position after it. Files are byte
sequences.

Each source file is one module: `Segments`, `History`, `DataFlash`,
`LogParser`, `LogReader`, `Exporter`, `Indexer`. `Messages` holds what they
share. Code that updates state step by step is modelled as methods with loops:

- the merge loop, the cursor walk, the iterators and the summary and index
  builders;
- the per-channel sampling and both exporters.

Most loop methods are proved equal to a specification function of their
inputs (`BuildIndex` computes `SummaryOf`, `IterRecords` computes `Records`),
and lemmas state what the source promises about those functions.
`read_channel_samples` is different: it can return midway through its label
loop. Its contract is the predicate `ReadsTo` on the scan state at the return:
the end of the records, a label that has just filled, or the first sampled
`None`. A lemma shows that `ReadsTo` allows one result only. `UndoRedoStack`
and the caching `DataFlashParser` are classes. Their methods state every field
of the new state, and lemmas relate sequences of calls.

Behaviour of the code worth noting:

- The fallback time is not one increasing counter over all records. In
  `core/dataflash.py` it counts only the untimed records (0, 1, 2, ...). In
  `core/log_parser.py` it is the message's position in the log.
- Decoding errors do not abort with a corruption error. `log_parser`'s
  `iter_messages` stops quietly at the first exception, so its message list
  ends there. A `None` time attribute in `log_reader` raises a `TypeError`.
- `normalize_segments` does not reject ranges with `start >= end`; it merges
  them like any other. Validation is the separate `validate`/`validate_segments`.
- `validate_segments` takes `(segments, min_time, max_time)`, not a bounds
  tuple. An empty log is no error in `get_info` and `summarize` (they report
  0.0); only `log_reader.build_index` raises `ValueError`.
- `DataFlashParser` caches its reader. A second pass over the same parser
  object sees only what the first left unread; the `unread` field models this.
- The timestamp priority tables differ: `TimeUS`, `TimeMS`, `time_usec`,
  `time_boot_ms` in `dataflash`; `TimeUS`, `time_usec`, `time_boot_ms`,
  `TimeMS` in `log_parser`; `time_us`, `time_ms`, `TimeUS`, `_timestamp` in
  `log_reader`, which tests presence only.
- The test suite imports `SegmentError`, `trim_to_selection` and
  `add_remove_segment`, none of which the core defines. Their expected results
  are stated on the functions that exist: `remove_segments` and
  `normalize_segments` of the existing list plus the new segment.

## Model

| member | source | states |
|---|---|---|
| Segments.Segment.Validate | core/segments.py:12-16 | passes exactly when min_time <= start < end <= max_time; fails with the start/end error exactly when start >= end, which is checked first |
| Segments.ValidateSegments | core/segments.py:61-63 | passes iff every segment passes; a failure is the error of the first segment that fails |
| Segments.ContainsTime | core/segments.py:47-51 | true iff some segment has start <= ts <= end (closed at both ends) |
| Segments.RemoveContainsTime | core/segments.py:54-58 | the loop returns exactly the closed-interval membership of contains_time |
| Segments.SortByStart | core/segments.py:20 | the sorted list is ordered by start and is a permutation of the input |
| Segments.SortByStartIsStable | core/segments.py:20 | segments with equal starts keep their input order, as Python's sort does |
| Segments.SortSortedIsIdentity | core/segments.py:20 | sorting a list already ordered by start changes nothing |
| Segments.NormalizeSegments | core/segments.py:19-31 | the merge loop over the sorted list computes Normalize |
| Segments.MergeStepShape | core/segments.py:23-30 | one iteration of the merge loop keeps the merged list sorted and strictly separated and grows it by at most one |
| Segments.MergeStepCoverage | core/segments.py:23-30 | one iteration covers exactly what the merged list covered plus the new segment |
| Segments.CoalesceShape | core/segments.py:21-31 | on a sorted input the merged list is sorted, strictly separated (end < next start) and no longer than the input |
| Segments.CoalesceCoverage | core/segments.py:21-31 | on a sorted input merging preserves coverage of every time |
| Segments.CoalesceSeparatedIsIdentity | core/segments.py:21-31 | a list already sorted and strictly separated is left unchanged |
| Segments.CoalesceSubsumes | core/segments.py:21-31 | every input segment lies inside some merged segment |
| Segments.NormalizeShape | core/segments.py:19-31 | the result is sorted and strictly separated, touching segments merged (line 27), no longer than the input, and empty iff the input is |
| Segments.NormalizeCoverage | core/segments.py:19-31 | contains_time on the normalised list equals contains_time on the input, for every time |
| Segments.NormalizeIdempotent | core/segments.py:19-31 | normalising twice gives the same list as normalising once |
| Segments.NormalizeProper | core/segments.py:19-31 | if every input segment has start < end, so does every output segment |
| Segments.NormalizeSubsumes | core/segments.py:19-31 | every input segment lies inside some normalised segment |
| Segments.NormalizeStartsBounded | core/segments.py:19-31 | a bound on the input starts also bounds the output starts |
| Segments.RemoveSegments | core/segments.py:34-44 | the cursor walk over the normalised list computes KeepRanges, the gaps between removed ranges inside the bounds |
| Segments.GapsBounds | core/segments.py:37-43 | every gap starts at or after the cursor with start < end, and ends by duration_end when the removed starts do |
| Segments.GapsSeparated | core/segments.py:37-43 | over proper removed ranges the gaps are strictly separated |
| Segments.GapsComplement | core/segments.py:37-43 | a time between the cursor and duration_end that no removed range covers lies in some gap |
| Segments.GapsSound | core/segments.py:37-43 | a time in a gap is at or after the cursor and strictly inside no removed range |
| Segments.KeepRangesInBounds | core/segments.py:34-44 | when the removed ranges start by duration_end, every kept segment has start < end and lies inside [duration_start, duration_end] |
| Segments.KeepRangesSeparated | core/segments.py:34-44 | for proper removed ranges the kept segments are sorted and pairwise disjoint |
| Segments.KeepRangesComplement | core/segments.py:36-43 | a time in the bounds that no removed range covers is in some kept segment |
| Segments.KeepRangesSound | core/segments.py:36-43 | a time in a kept segment is at or after duration_start and strictly inside no removed range |
| Segments.NormalizeMergesOverlaps | tests/test_segments.py:11-14 | normalize([(0,2),(1,3),(4,5)]) == [(0,3),(4,5)] |
| Segments.TrimToSelection | tests/test_segments.py:17-19 | keeping (3,7) from (0,10) removes [(0,3),(7,10)], as remove_segments(0, 10, [(3,7)]) |
| Segments.AddRemoveSegmentMerges | tests/test_segments.py:22-25 | adding (1,3) to [(0,2)] and normalising gives [(0,3)] |
| Segments.InvertTwoSegments | core/segments.py:34-44 | removing [(2,4),(6,7)] from (0,10) keeps [(0,2),(4,6),(7,10)] |
| Segments.ValidationRejects | tests/test_segments.py:28-34 | an inverted range and a range before the log start both fail validation, each with its own error |
| History.UndoRedoStack.constructor | core/history.py:15-17 | both lists start empty |
| History.UndoRedoStack.Push | core/history.py:19-21 | the state is appended to the undo list and the redo list is cleared |
| History.UndoRedoStack.Undo | core/history.py:23-27 | with an empty undo list, returns the current state and changes nothing; otherwise returns the last undo snapshot, removes it and appends the current state to redo; the total size is preserved |
| History.UndoRedoStack.Redo | core/history.py:29-33 | the mirror image of Undo, between the redo and undo lists |
| History.UndoRedoStack.CanUndo | core/history.py:35-36 | true iff the undo list is non-empty |
| History.UndoRedoStack.CanRedo | core/history.py:38-39 | true iff the redo list is non-empty |
| History.UndoThenRedo | core/history.py:23-33 | with a non-empty undo list, undo then redo gives back the current state and restores both lists exactly |
| History.RedoThenUndo | core/history.py:23-33 | with a non-empty redo list, redo then undo gives back the current state and restores both lists exactly |
| History.EditAfterUndo | core/history.py:19-27 | a new edit after an undo makes redo impossible and leaves the new edit on top of the undo list |
| Messages.FirstValued | core/dataflash.py:37-46 | the chosen candidate is the first whose attribute is present and not None; every earlier one is absent or None |
| Messages.FirstPresent | core/log_reader.py:41-50 | the chosen candidate is the first whose attribute is present, whatever its value |
| Messages.MultiplesInMembers | core/dataflash.py:92-93 | a number occurs among the progress marks iff it is in the range and a multiple of the step; the marks strictly increase |
| Messages.MultiplesCount | core/log_reader.py:84-85 | counts 1..n hold n / abs(step) multiples of the step |
| DataFlash.ExtractTimestamp | core/dataflash.py:32-47 | None exactly when none of TimeUS, TimeMS, time_usec and time_boot_ms has a value |
| DataFlash.ExtractTimestampOrder | core/dataflash.py:32-47 | TimeUS/1e6, else TimeMS/1e3, else time_usec/1e6, else time_boot_ms/1e3, skipping fields that are absent or None; None when none has a value |
| DataFlash.IterRecords | core/dataflash.py:66-82 | the loop yields Records: one record per read, with its offsets and the fallback counter |
| DataFlash.RecordsAreContiguous | core/dataflash.py:71-75 | the first record starts at the initial position, each record starts where the previous ended, and each ends at the position after its read |
| DataFlash.FallbackCounterCounts | core/dataflash.py:68-79 | the untimed records get 0, 1, 2, ... in order; the counter advances only on a fallback |
| DataFlash.AllUntimedCountUp | core/dataflash.py:76-79 | in a log without a usable time field the fallback count reaches the number of records |
| DataFlash.GetInfo | core/dataflash.py:84-107 | message_count is the number of records; time_range is the first and last record time, or (0.0, 0.0) when empty; has_time iff some message has an extractable timestamp; progress runs at every multiple of 5000 |
| DataFlash.SummarizeRecords | core/dataflash.py:86-100 | the accumulator loop yields the count, the first/last range and the has_time disjunction of the records |
| DataFlash.UntimedRange | core/dataflash.py:94-100 | a non-empty log with no time field spans 0.0 to n-1 |
| DataFlash.IsRemoved | core/dataflash.py:130-134 | true iff some (start, end) pair has start <= timestamp <= end |
| DataFlash.IsRemovedIsContainsTime | core/dataflash.py:130-134 | _is_removed on the pairs of a segment list is contains_time on the list |
| DataFlash.ReadChunk | core/dataflash.py:125-126 | a read inside the file returns exactly the bytes [pos, pos + size) |
| DataFlash.Export | core/dataflash.py:114-127 | the output is the in-order concatenation of the byte slices of the records not removed; progress at every index that is a multiple of 5000 |
| DataFlash.ExportRecords | core/dataflash.py:120-127 | the export loop over the records computes the concatenation of the kept slices |
| DataFlash.KeptMembers | core/dataflash.py:123-124 | a record is kept iff it is one of the records and its time is in no removed pair |
| DataFlash.KeptNothingRemoved | core/dataflash.py:123-127 | with no removed pair every record is kept |
| DataFlash.SlicesOfPrefix | core/dataflash.py:123-127 | for monotone positions the slices of the first n records tile the file from the initial position to the position before read n |
| DataFlash.ExportWithoutRemovalIsCopy | core/dataflash.py:119-127 | when the reads tile the whole file, exporting with nothing removed writes a byte-identical copy |
| DataFlash.EveryThirdSnoc | core/dataflash.py:161-163 | a new match is kept exactly when the match count becomes a multiple of 3; otherwise the kept list is unchanged |
| DataFlash.ChannelStep | core/dataflash.py:156-166 | one record advances a label's counter only on a match, and appends the time and value only on every third match |
| DataFlash.OfferToChannel | core/dataflash.py:156-168 | record i offered to label k: skipped or counted, and kept on every third match; stops at FullAt when the kept sample brings the label to max_points, or at NoneAt when the kept value is None |
| DataFlash.OfferRecord | core/dataflash.py:154-168 | one record offered to every label in order: continues with every label below the cap, or stops at FullAt (the label just sampled reaches max_points, every other label below it), or at NoneAt (the sample to keep is None, no label full) |
| DataFlash.ReadChannelSamples | core/dataflash.py:137-169 | ReadsTo: Ok with every record read and every label below the cap, Ok at the point where one label has just reached max_points, or the TypeError naming the label of the first sampled None; times and values have equal length and no list exceeds the cap |
| DataFlash.OfferedDetermines | core/dataflash.py:148-166 | the counters and the lists at a point of the scan are a function of the records |
| DataFlash.KeptNoneStops | core/dataflash.py:164-166 | no point of the scan lies past a sampled None, since float(None) raises there |
| DataFlash.FullStays | core/dataflash.py:164-168 | a label that has reached max_points stays at or above it at every later point |
| DataFlash.FullAtUnique | core/dataflash.py:167-168 | the scan returns on a full label at one point only: the first time a label reaches max_points |
| DataFlash.NoneAtUnique | core/dataflash.py:166 | the TypeError happens at one point only: the first kept None |
| DataFlash.ReadsToUnique | core/dataflash.py:137-169 | the records determine the result: ReadsTo holds of one result only |
| DataFlash.HoldsLengths | core/dataflash.py:164-166 | every label's times and values have the same length |
| DataFlash.ErrorIsKeptNone | core/dataflash.py:166 | a third match whose attribute is None makes float() raise |
| LogParser.ExtractTimestamp | core/log_parser.py:153-162 | the fallback index when no field has a value; otherwise the value of one of the four fields, scaled to seconds |
| LogParser.ExtractTimestampOrder | core/log_parser.py:153-162 | TimeUS, then time_usec (/1e6), then time_boot_ms, then TimeMS (/1e3), skipping None values; otherwise the fallback index |
| LogParser.DataFlashParser.constructor | core/log_parser.py:45-47 | a new parser has every message of the log still unread |
| LogParser.DataFlashParser.Next | core/log_parser.py:57-66 | one read: None at the end, otherwise the next message with its index and timestamp, which is then consumed |
| LogParser.DataFlashParser.IterMessages | core/log_parser.py:54-67 | yields (i, extract_timestamp(msg_i, i), msg_i) for i = 0, 1, 2, ... and leaves the cached reader exhausted |
| LogParser.DataFlashParser.BuildIndex | core/log_parser.py:69-79 | computes IndexOf; a zero stride raises after the first message is read |
| LogParser.IndexOfFails | core/log_parser.py:72-73 | the index fails iff the stride is 0 and the log is not empty; an empty log gives an empty index |
| LogParser.IndexOfMembers | core/log_parser.py:72-78 | a message number is in the index iff it is a multiple of the stride in the log, or it is the last message and its time differs from that of the last multiple |
| LogParser.LastMultiple | core/log_parser.py:72-75 | the last number sampled is (n-1) - (n-1) % stride, the greatest multiple of the stride in the log |
| LogParser.LogIndex.Start | core/log_parser.py:35-37 | 0.0 for an empty index, otherwise one of its timestamps |
| LogParser.LogIndex.End | core/log_parser.py:39-41 | 0.0 for an empty index, otherwise one of its timestamps |
| LogParser.MultiplesStartAtZero | core/log_parser.py:72-75 | message 0 is always sampled |
| LogParser.IndexOfShape | core/log_parser.py:35-41 | both lists have equal length, the message numbers strictly increase and lie in the log, and each timestamp is its message's time; start/end are the times of the first and last message |
| LogParser.DataFlashParser.Summarize | core/log_parser.py:81-99 | message_count is the number of messages; start/end are the first and last timestamps, or 0.0 for an empty log; the type is "DataFlash" |
| LogParser.AppendSeries | core/log_parser.py:121-150 | keeps the keys; each table series whose type matches and whose value is not None gains the (time, value) pair; every other series is unchanged |
| LogParser.DataFlashParser.CollectSeries | core/log_parser.py:101-118 | folds _append_series over the even-numbered (1-based) messages among the first Consumed ones, and leaves the rest unread |
| LogParser.FoldPerSeries | core/log_parser.py:111-115 | each series gains exactly the times and values of the decimated messages that feed it |
| LogParser.PicksAlign | core/log_parser.py:121-150 | the times and values a series gains have equal length |
| LogParser.CollectedSeries | core/log_parser.py:101-118 | every series is present and holds the picks of the messages read, its times and values of equal length |
| LogReader.MessageTime | core/log_reader.py:41-50 | no time exactly when none of time_us, time_ms, TimeUS and _timestamp is present; the TypeError only for a present attribute set to None |
| LogReader.MessageTimeOrder | core/log_reader.py:41-50 | time_us/1e6, else time_ms/1e3, else TimeUS/1e6, else _timestamp, by presence alone; a present None raises; no field gives no time |
| LogReader.IterMessages | core/log_reader.py:52-62 | the loop yields ScanTimes: the timed messages with their times and offsets, or the TypeError of a None time |
| LogReader.ScanTimesFails | core/log_reader.py:52-62 | iteration succeeds iff no message has a time attribute set to None |
| LogReader.ScanTimesCount | core/log_reader.py:59-62 | one element per timed message |
| LogReader.ScanTimesYields | core/log_reader.py:59-62 | every yielded message carries the time _message_time gives it; no untimed message is yielded |
| LogReader.ScanTimesSticks | core/log_reader.py:52-62 | once the iteration has raised, later reads change nothing |
| LogReader.ScanTimesOrigin | core/log_reader.py:52-62 | every yielded message is a message of the log, read before the end |
| LogReader.BuildIndex | core/log_reader.py:64-110 | the loop computes SummaryOf: the first exception raised, the ValueError when no message is timed, or the summary |
| LogReader.ReadOne | core/log_reader.py:78-97 | one read either decides the outcome with its exception or extends what has been gathered by that message |
| LogReader.ReadTimed | core/log_reader.py:78-97 | a timed read either decides the outcome with its exception or extends what has been gathered by that message |
| LogReader.AddTimed | core/log_reader.py:79-97 | updates count, start, end, index and samples by one timed message; raises for a zero stride or a sample conversion that fails |
| LogReader.TallyTimed | core/log_reader.py:79-85 | the count grows by one, start is kept or set, end is this time, and an index point is added when the count is a multiple of the stride |
| LogReader.Finish | core/log_reader.py:99-110 | after a pass with no exception: the ValueError when no message was timed, else the summary of what was gathered |
| LogReader.AppendSamples | core/log_reader.py:87-97 | the type dispatch adds the message's samples to their channels |
| LogReader.IndexPointsLength | core/log_reader.py:84-85 | one index point per count that is a multiple of the stride |
| LogReader.SummaryOutcome | core/log_reader.py:99-100 | success iff nothing raised and some message is timed; the ValueError iff nothing raised and none is timed |
| LogReader.FaultNotValueError | core/log_reader.py:99-100 | the ValueError never comes from a single read |
| LogReader.SummaryFields | core/log_reader.py:78-82 | message_count is the number of timed messages, duration is end - start, and all six channels are present |
| LogReader.SummaryEnds | core/log_reader.py:80-82 | start_time and end_time are both times of messages in the log |
| LogReader.SummaryIndex | core/log_reader.py:84-85 | a successful build has a nonzero stride and len(index) == message_count / abs(stride) |
| LogReader.ZeroStrideUntimed | core/log_reader.py:84 | with a zero stride nothing raises only when no message is timed |
| LogReader.AttitudePoints | core/log_reader.py:94-97 | an ATT message adds one roll, one pitch and one yaw together |
| LogReader.AttitudeAligned | core/log_reader.py:94-97 | the ROLL, PITCH and YAW channels always have equal length |
| Exporter.Export | core/exporter.py:24-44 | writes the in-order _buf of every message whose time is in no removed segment (messages without _buf add nothing); reports (1..n, total_messages or 0) |
| Exporter.KeptBytesNormalized | core/exporter.py:31 | filtering with the normalised remove list writes the same bytes as with the raw list |
| Exporter.KeptBytesAppend | core/exporter.py:36-41 | the output for a log split in two is the output of the first part followed by that of the second |
| Exporter.NothingRemovedCopiesAll | core/exporter.py:36-41 | with nothing removed every raw record is written, in order |
| Exporter.AllRemovedWritesNothing | core/exporter.py:36-41 | when every message time is removed nothing is written |
| Exporter.KeptInPlace | core/exporter.py:36-41 | a kept message's bytes appear right after those of the messages before it |
| Indexer.BuildTimeIndex | core/indexer.py:15-30 | the index holds the every-fifth times of the records read before the cap stops the loop; progress at every multiple of 5000 read |
| Indexer.SampleTimes | core/indexer.py:22-29 | the loop with its skip and break computes the every-fifth times of the visited prefix |
| Indexer.EveryFifthLength | core/indexer.py:25-27 | ceil(n/5) times for n records |
| Indexer.EveryFifthAt | core/indexer.py:25-27 | the j-th time is that of record 5j |
| Indexer.TimeIndexShape | core/indexer.py:22-29 | the index holds min(ceil(n/5), max(max_points, 1)) times, the j-th being record 5j's |

## Left out

- The DataFlash binary format and pymavlink's `DFReader`/`mavutil`. Decoding is an abstract sequence of messages with positions and raw bytes.
- Real files: `open`, `seek`, `tell`, `read`, `write`. Files are byte sequences, positions come with the decoded pass, and output is the accumulated bytes. The `stat()` size is a parameter.
- Floating-point rounding. Times are reals, the divisions by 1e6 and 1e3 are exact, and `float()` of a number is the number itself.
- Logging (`logger.exception`, `logger.info`). The exception that ends `log_parser`'s iteration is modelled as the end of the message list.
- Laziness of the generators, which become sequences. Early stops (`collect_series`, `build_time_index`, `read_channel_samples`) are modelled by the number of messages read.
- Progress callbacks, which are modelled as the sequence of arguments they receive.
- The `path` fields of `LogInfo` and `LogSummary`, which are only copied through.
- `read_channel_samples` reads the message type through `getattr(msg, "get_type", lambda: "")`. A message without `get_type` is a message whose kind is the empty string.
- `ui/`, `app.py`, `core/logging_setup.py`, `core/logging_config.py` and `core/__init__.py` are not part of this model. They hold presentation, logging setup and re-exports.
