/** The DataFlash reader, summary, exporter and channel sampler of core/dataflash.py.
    The decoder is abstract (see Messages): a record is a decoded message with the
    file positions before and after the read that produced it. */
module DataFlash {
  import opened Messages
  import Segments

  // ---------------------------------------------------------------------------
  // _extract_timestamp

  /** The attributes tried, in order, and their units per second. */
  const TimestampFields: seq<Candidate> := [
    Candidate("TimeUS", 1000000.0),
    Candidate("TimeMS", 1000.0),
    Candidate("time_usec", 1000000.0),
    Candidate("time_boot_ms", 1000.0)
  ]

  /** _extract_timestamp: the first attribute of the table that is present and
      not None, scaled to seconds; None when no attribute of the table has a value. */
  function ExtractTimestamp(m: Message): (r: Option<real>)
    ensures r.None? <==>
              Attr(m, "TimeUS").None? && Attr(m, "TimeMS").None? && Attr(m, "time_usec").None? && Attr(m, "time_boot_ms").None?
  {
    var i := FirstValued(m, TimestampFields);
    assert TimestampFields[0].field == "TimeUS" && TimestampFields[1].field == "TimeMS";
    assert TimestampFields[2].field == "time_usec" && TimestampFields[3].field == "time_boot_ms";
    if i < |TimestampFields| then Some(Attr(m, TimestampFields[i].field).value / TimestampFields[i].divisor)
    else None
  }

  /** The priority order spelled out field by field: an attribute set to None is skipped. */
  lemma ExtractTimestampOrder(m: Message)
    ensures Attr(m, "TimeUS").Some? ==> ExtractTimestamp(m) == Some(Attr(m, "TimeUS").value / 1000000.0)
    ensures (Attr(m, "TimeUS").None? && Attr(m, "TimeMS").Some?) ==>
              ExtractTimestamp(m) == Some(Attr(m, "TimeMS").value / 1000.0)
    ensures (Attr(m, "TimeUS").None? && Attr(m, "TimeMS").None? && Attr(m, "time_usec").Some?) ==>
              ExtractTimestamp(m) == Some(Attr(m, "time_usec").value / 1000000.0)
    ensures (Attr(m, "TimeUS").None? && Attr(m, "TimeMS").None? && Attr(m, "time_usec").None? &&
             Attr(m, "time_boot_ms").Some?) ==>
              ExtractTimestamp(m) == Some(Attr(m, "time_boot_ms").value / 1000.0)
    ensures (Attr(m, "TimeUS").None? && Attr(m, "TimeMS").None? && Attr(m, "time_usec").None? &&
             Attr(m, "time_boot_ms").None?) ==> ExtractTimestamp(m).None?
  {
    assert TimestampFields[0].field == "TimeUS" && TimestampFields[1].field == "TimeMS";
    assert TimestampFields[2].field == "time_usec" && TimestampFields[3].field == "time_boot_ms";
  }

  // ---------------------------------------------------------------------------
  // DataFlashReader.iter_records

  datatype LogRecord = LogRecord(timestamp: real, offsetStart: nat, offsetEnd: nat, message: Message)

  /** How many of the first n decoded messages carry no extractable timestamp. */
  function UntimedBefore(decoded: seq<Read>, n: nat): nat
    requires n <= |decoded|
  {
    if n == 0 then 0
    else UntimedBefore(decoded, n - 1) + (if ExtractTimestamp(decoded[n - 1].msg).None? then 1 else 0)
  }

  /** The i-th record: an untimed message is stamped with the number of untimed
      messages before it; its bytes run from the position before its read to
      the position after it. */
  function RecordAt(t: Trace, i: nat): LogRecord
    requires i < |t.decoded|
  {
    var m := t.decoded[i].msg;
    var ts := match ExtractTimestamp(m)
      case Some(v) => v
      case None => UntimedBefore(t.decoded, i) as real;
    LogRecord(ts, TellBefore(t, i), t.decoded[i].tellAfter, m)
  }

  function Records(t: Trace): (r: seq<LogRecord>)
    ensures |r| == |t.decoded|
    ensures forall i :: 0 <= i < |r| ==> r[i] == RecordAt(t, i)
  {
    seq(|t.decoded|, i requires 0 <= i < |t.decoded| => RecordAt(t, i))
  }

  /** iter_records: reads until the decoder returns None, noting the position
      before and after each read and stamping untimed records from a counter. */
  method IterRecords(t: Trace) returns (records: seq<LogRecord>)
    ensures records == Records(t)
  {
    var fallbackCounter: real := 0.0;
    var position := t.origin;
    records := [];
    for i := 0 to |t.decoded|
      invariant |records| == i
      invariant forall k :: 0 <= k < i ==> records[k] == RecordAt(t, k)
      invariant fallbackCounter == UntimedBefore(t.decoded, i) as real
      invariant position == TellBefore(t, i)
    {
      var offsetStart := position;
      var msg := t.decoded[i].msg;
      position := t.decoded[i].tellAfter;
      var offsetEnd := position;
      var timestamp: real;
      var extracted := ExtractTimestamp(msg);
      if extracted.None? {
        timestamp := fallbackCounter;
        fallbackCounter := fallbackCounter + 1.0;
      } else {
        timestamp := extracted.value;
      }
      var record := LogRecord(timestamp, offsetStart, offsetEnd, msg);
      assert record == RecordAt(t, i);
      records := records + [record];
    }
  }

  /** The records' byte ranges follow each other: each starts where the previous one ended. */
  lemma RecordsAreContiguous(t: Trace)
    ensures |t.decoded| > 0 ==> Records(t)[0].offsetStart == t.origin
    ensures forall i :: 0 < i < |t.decoded| ==> Records(t)[i].offsetStart == Records(t)[i - 1].offsetEnd
    ensures forall i :: 0 <= i < |t.decoded| ==> Records(t)[i].offsetEnd == t.decoded[i].tellAfter
  {
  }

  /** The stamps given to untimed records, in order. */
  function FallbackStamps(records: seq<LogRecord>): seq<real> {
    if records == [] then []
    else
      var last := records[|records| - 1];
      FallbackStamps(records[..|records| - 1]) + (if ExtractTimestamp(last.message).None? then [last.timestamp] else [])
  }

  /** 0.0, 1.0, ..., (m - 1) as real. */
  function CountingUp(m: nat): (r: seq<real>)
    ensures |r| == m
  {
    if m == 0 then [] else CountingUp(m - 1) + [(m - 1) as real]
  }

  /** The fallback counter: untimed records are stamped 0, 1, 2, ... in order of
      appearance, and the counter moves only when one is used. */
  lemma {:induction false} FallbackCounterCounts(t: Trace, n: nat)
    requires n <= |t.decoded|
    ensures FallbackStamps(Records(t)[..n]) == CountingUp(UntimedBefore(t.decoded, n))
  {
    if n > 0 {
      FallbackCounterCounts(t, n - 1);
      FallbackStep(t, n - 1);
      CountingUpStep(FallbackStamps(Records(t)[..n - 1]), FallbackStamps(Records(t)[..n]),
                     UntimedBefore(t.decoded, n - 1), ExtractTimestamp(t.decoded[n - 1].msg).None?);
    }
  }

  lemma CountingUpStep(before: seq<real>, after: seq<real>, m: nat, untimed: bool)
    requires before == CountingUp(m)
    requires after == before + (if untimed then [m as real] else [])
    ensures after == CountingUp(m + if untimed then 1 else 0)
  {
  }

  lemma FallbackStep(t: Trace, i: nat)
    requires i < |t.decoded|
    ensures FallbackStamps(Records(t)[..i + 1]) ==
              FallbackStamps(Records(t)[..i]) +
              (if ExtractTimestamp(t.decoded[i].msg).None? then [UntimedBefore(t.decoded, i) as real] else [])
  {
    var records := Records(t);
    assert records[..i + 1][..i] == records[..i];
    assert records[..i + 1][i] == records[i];
  }

  /** When no message has a timestamp the records are stamped 0, 1, ..., n-1. */
  lemma {:induction false} AllUntimedCountUp(t: Trace, n: nat)
    requires n <= |t.decoded|
    requires forall i :: 0 <= i < |t.decoded| ==> ExtractTimestamp(t.decoded[i].msg).None?
    ensures UntimedBefore(t.decoded, n) == n
  {
    if n > 0 {
      AllUntimedCountUp(t, n - 1);
    }
  }

  // ---------------------------------------------------------------------------
  // DataFlashReader.get_info

  datatype LogInfo = LogInfo(sizeBytes: nat, messageCount: nat, timeRange: (real, real), hasTime: bool)

  /** The first and last timestamps, or (0, 0) for an empty log. */
  function TimeRange(records: seq<LogRecord>): (real, real) {
    if records == [] then (0.0, 0.0) else (records[0].timestamp, records[|records| - 1].timestamp)
  }

  /** What get_info reports: the size, the number of records, the time range,
      and whether any message had a real timestamp. */
  ghost function InfoOf(t: Trace, sizeBytes: nat): LogInfo {
    LogInfo(sizeBytes, |t.decoded|, TimeRange(Records(t)),
            exists i :: 0 <= i < |t.decoded| && ExtractTimestamp(t.decoded[i].msg).Some?)
  }

  /** get_info: one pass that counts the records, keeps the first and last
      timestamps and notes whether any message had a real timestamp. The file
      size is a parameter (it comes from stat()). */
  method GetInfo(t: Trace, sizeBytes: nat, reportProgress: bool) returns (info: LogInfo, progress: seq<nat>)
    ensures info == InfoOf(t, sizeBytes)
    ensures progress == if reportProgress then MultiplesIn(1, |t.decoded| + 1, 5000) else []
  {
    var records := IterRecords(t);
    var messageCount, range, hasTime;
    messageCount, range, hasTime, progress := SummarizeRecords(records, reportProgress);
    info := LogInfo(sizeBytes, messageCount, range, hasTime);
    assert hasTime <==> exists i :: 0 <= i < |t.decoded| && ExtractTimestamp(t.decoded[i].msg).Some? by {
      assert forall i :: 0 <= i < |records| ==> records[i].message == t.decoded[i].msg;
    }
  }

  /** Without any real timestamp the range is (0, n - 1): the records carry the
      fallback counter, from the first to the last untimed one. */
  lemma UntimedRange(t: Trace, sizeBytes: nat)
    requires !InfoOf(t, sizeBytes).hasTime && t.decoded != []
    ensures InfoOf(t, sizeBytes).timeRange == (0.0, (|t.decoded| - 1) as real)
  {
    assert forall i :: 0 <= i < |t.decoded| ==> ExtractTimestamp(t.decoded[i].msg).None?;
    AllUntimedCountUp(t, |t.decoded| - 1);
  }

  /** The loop of get_info over the records iter_records yields. */
  method SummarizeRecords(records: seq<LogRecord>, reportProgress: bool)
    returns (messageCount: nat, range: (real, real), hasTime: bool, progress: seq<nat>)
    ensures messageCount == |records|
    ensures range == TimeRange(records)
    ensures hasTime <==> exists i :: 0 <= i < |records| && ExtractTimestamp(records[i].message).Some?
    ensures progress == if reportProgress then MultiplesIn(1, |records| + 1, 5000) else []
  {
    messageCount := 0;
    var startTime: Option<real> := None;
    var endTime: Option<real> := None;
    hasTime := false;
    progress := [];
    for k := 0 to |records|
      invariant messageCount == k
      invariant k == 0 ==> startTime.None? && endTime.None?
      invariant k > 0 ==> startTime == Some(records[0].timestamp) && endTime == Some(records[k - 1].timestamp)
      invariant hasTime <==> exists i :: 0 <= i < k && ExtractTimestamp(records[i].message).Some?
      invariant progress == if reportProgress then MultiplesIn(1, k + 1, 5000) else []
    {
      var record := records[k];
      messageCount := messageCount + 1;
      if reportProgress && messageCount % 5000 == 0 {
        progress := progress + [messageCount];
      }
      assert progress == if reportProgress then MultiplesIn(1, k + 2, 5000) else [] by {
        MultiplesSnoc(1, k + 1, 5000);
      }
      if startTime.None? {
        startTime := Some(record.timestamp);
      }
      endTime := Some(record.timestamp);
      hasTime := hasTime || ExtractTimestamp(record.message).Some?;
    }
    range := if startTime.None? || endTime.None? then (0.0, 0.0) else (startTime.value, endTime.value);
  }

  // ---------------------------------------------------------------------------
  // DataFlashExporter.export and _is_removed

  /** _is_removed: some (start, end) pair holds the timestamp, both ends included. */
  function IsRemoved(timestamp: real, removeSegments: seq<(real, real)>): (r: bool)
    ensures r <==> exists i :: 0 <= i < |removeSegments| &&
                     removeSegments[i].0 <= timestamp <= removeSegments[i].1
  {
    if removeSegments == [] then false
    else (removeSegments[0].0 <= timestamp <= removeSegments[0].1) || IsRemoved(timestamp, removeSegments[1..])
  }

  /** The pairs the window hands to export: [(s.start, s.end) for s in segments]. */
  function AsPairs(segments: seq<Segments.Segment>): (r: seq<(real, real)>)
    ensures |r| == |segments|
    ensures forall i :: 0 <= i < |r| ==> r[i] == (segments[i].start, segments[i].end)
  {
    seq(|segments|, i requires 0 <= i < |segments| => (segments[i].start, segments[i].end))
  }

  /** _is_removed on the exported pairs is contains_time on the segments. */
  lemma IsRemovedIsContainsTime(timestamp: real, segments: seq<Segments.Segment>)
    ensures IsRemoved(timestamp, AsPairs(segments)) == Segments.ContainsTime(segments, timestamp)
  {
    var p := AsPairs(segments);
    if IsRemoved(timestamp, p) {
      var i :| 0 <= i < |p| && p[i].0 <= timestamp <= p[i].1;
      assert Segments.Covers(segments[i], timestamp);
    }
  }

  function Min(a: int, b: int): int {
    if a <= b then a else b
  }

  /** raw_file.seek(pos) then raw_file.read(size): a negative size reads to the
      end of the file, and a read past the end returns only what is there. */
  function ReadChunk(file: seq<Byte>, pos: nat, size: int): (chunk: seq<Byte>)
    ensures 0 <= size && pos + size <= |file| ==> chunk == file[pos..pos + size]
  {
    if pos >= |file| then []
    else if size < 0 then file[pos..]
    else file[pos..Min(pos + size, |file|)]
  }

  /** The records whose timestamp no remove pair holds, in their original order. */
  function Kept(records: seq<LogRecord>, removeSegments: seq<(real, real)>): seq<LogRecord> {
    if records == [] then []
    else
      var last := records[|records| - 1];
      Kept(records[..|records| - 1], removeSegments) + (if IsRemoved(last.timestamp, removeSegments) then [] else [last])
  }

  /** export keeps exactly the records that no pair holds. */
  lemma {:induction false} KeptMembers(records: seq<LogRecord>, removeSegments: seq<(real, real)>)
    ensures forall x :: x in Kept(records, removeSegments) <==> x in records && !IsRemoved(x.timestamp, removeSegments)
  {
    if records != [] {
      var last := records[|records| - 1];
      assert records == records[..|records| - 1] + [last];
      KeptMembers(records[..|records| - 1], removeSegments);
    }
  }

  /** The byte slices [offsetStart, offsetEnd) of the given records, one after the other. */
  function Slices(source: seq<Byte>, records: seq<LogRecord>): seq<Byte> {
    if records == [] then []
    else
      var last := records[|records| - 1];
      Slices(source, records[..|records| - 1]) + Slice(source, last)
  }

  function Slice(source: seq<Byte>, record: LogRecord): seq<Byte> {
    ReadChunk(source, record.offsetStart, record.offsetEnd - record.offsetStart)
  }

  lemma SlicesSnoc(source: seq<Byte>, records: seq<LogRecord>, record: LogRecord)
    ensures Slices(source, records + [record]) == Slices(source, records) + Slice(source, record)
  {
    assert (records + [record])[..|records|] == records;
  }

  lemma ExportStep(source: seq<Byte>, records: seq<LogRecord>, n: nat, removeSegments: seq<(real, real)>)
    requires n < |records|
    ensures Slices(source, Kept(records[..n + 1], removeSegments)) ==
              Slices(source, Kept(records[..n], removeSegments)) +
              (if IsRemoved(records[n].timestamp, removeSegments) then [] else Slice(source, records[n]))
  {
    KeptSnoc(records, n, removeSegments);
    if IsRemoved(records[n].timestamp, removeSegments) {
      assert Kept(records[..n + 1], removeSegments) == Kept(records[..n], removeSegments);
    } else {
      SlicesSnoc(source, Kept(records[..n], removeSegments), records[n]);
    }
  }

  lemma KeptSnoc(records: seq<LogRecord>, n: nat, removeSegments: seq<(real, real)>)
    requires n < |records|
    ensures Kept(records[..n + 1], removeSegments) ==
              Kept(records[..n], removeSegments) + (if IsRemoved(records[n].timestamp, removeSegments) then [] else [records[n]])
  {
    assert records[..n + 1][..n] == records[..n];
  }

  /** export: writes the slice of every record that is not removed, in order.
      Progress is reported with the 0-based record index every 5000 records. */
  method Export(source: seq<Byte>, t: Trace, removeSegments: seq<(real, real)>, reportProgress: bool)
    returns (written: seq<Byte>, progress: seq<nat>)
    ensures written == Slices(source, Kept(Records(t), removeSegments))
    ensures progress == if reportProgress then MultiplesIn(0, |t.decoded|, 5000) else []
  {
    var records := IterRecords(t);
    written, progress := ExportRecords(source, records, removeSegments, reportProgress);
  }

  /** The loop of export over the records iter_records yields. */
  method ExportRecords(source: seq<Byte>, records: seq<LogRecord>, removeSegments: seq<(real, real)>, reportProgress: bool)
    returns (written: seq<Byte>, progress: seq<nat>)
    ensures written == Slices(source, Kept(records, removeSegments))
    ensures progress == if reportProgress then MultiplesIn(0, |records|, 5000) else []
  {
    written := [];
    progress := [];
    for index := 0 to |records|
      invariant written == Slices(source, Kept(records[..index], removeSegments))
      invariant progress == if reportProgress then MultiplesIn(0, index, 5000) else []
    {
      var record := records[index];
      if reportProgress && index % 5000 == 0 {
        progress := progress + [index];
      }
      assert progress == if reportProgress then MultiplesIn(0, index + 1, 5000) else [] by {
        MultiplesSnoc(0, index, 5000);
      }
      if IsRemoved(record.timestamp, removeSegments) {
        assert written == Slices(source, Kept(records[..index + 1], removeSegments)) by {
          ExportStep(source, records, index, removeSegments);
        }
        continue;
      }
      var chunk := ReadChunk(source, record.offsetStart, record.offsetEnd - record.offsetStart);
      written := written + chunk;
      assert written == Slices(source, Kept(records[..index + 1], removeSegments)) by {
        ExportStep(source, records, index, removeSegments);
      }
    }
    assert records[..|records|] == records;
  }

  /** With nothing to remove every record is kept. */
  lemma {:induction false} KeptNothingRemoved(records: seq<LogRecord>)
    ensures Kept(records, []) == records
  {
    if records != [] {
      KeptNothingRemoved(records[..|records| - 1]);
    }
  }

  /** The file positions of a decoding pass never go back and never pass the end
      of the file. */
  ghost predicate Monotone(t: Trace, size: nat) {
    forall i :: 0 <= i < |t.decoded| ==> TellBefore(t, i) <= t.decoded[i].tellAfter <= size
  }

  /** A record's bytes run from the position before its read to the one after it. */
  lemma RecordBounds(t: Trace, i: nat)
    requires i < |t.decoded|
    ensures Records(t)[i].offsetStart == TellBefore(t, i) && Records(t)[i].offsetEnd == TellBefore(t, i + 1)
  {
  }

  lemma {:induction false} SlicesOfPrefix(source: seq<Byte>, t: Trace, n: nat)
    requires n <= |t.decoded| && t.origin <= |source| && Monotone(t, |source|)
    ensures t.origin <= TellBefore(t, n) <= |source|
    ensures Slices(source, Records(t)[..n]) == source[t.origin..TellBefore(t, n)]
  {
    if n > 0 {
      SlicesOfPrefix(source, t, n - 1);
      var records := Records(t);
      var a, b := TellBefore(t, n - 1), TellBefore(t, n);
      assert a <= b <= |source| by {
        assert TellBefore(t, n - 1) <= t.decoded[n - 1].tellAfter <= |source|;
      }
      assert Slices(source, records[..n]) == Slices(source, records[..n - 1]) + Slice(source, records[n - 1]) by {
        assert records[..n][..n - 1] == records[..n - 1];
      }
      assert Slice(source, records[n - 1]) == source[a..b] by {
        RecordBounds(t, n - 1);
      }
      SliceSplit(source, t.origin, a, b);
    }
  }

  /** Exporting with an empty remove list copies the file byte for byte when the
      records tile it: the first read starts at 0, positions never go back, and
      the last read ends at the end of the file. */
  lemma ExportWithoutRemovalIsCopy(source: seq<Byte>, t: Trace)
    requires t.origin == 0 && Monotone(t, |source|)
    requires TellBefore(t, |t.decoded|) == |source|
    ensures Slices(source, Kept(Records(t), [])) == source
  {
    var records := Records(t);
    assert Kept(records, []) == records by {
      KeptNothingRemoved(records);
    }
    assert Slices(source, records) == source[0..|source|] by {
      SlicesOfPrefix(source, t, |t.decoded|);
      assert records[..|t.decoded|] == records;
    }
    assert source[0..|source|] == source;
  }

  // ---------------------------------------------------------------------------
  // read_channel_samples

  /** A requested channel: the label it is reported under, the message type it
      reads and the attribute it samples. */
  datatype Channel = Channel(name: string, msgType: string, field: string)

  datatype Series = Series(times: seq<real>, values: seq<real>)

  /** float(getattr(msg, field)) raised TypeError because the attribute was None. */
  datatype SampleError = FieldIsNone(channel: string)

  /** A record the channel counts: the right message type, with the attribute present. */
  predicate Matches(m: Message, ch: Channel) {
    m.kind == ch.msgType && HasAttr(m, ch.field)
  }

  datatype Sample = Sample(time: real, value: Option<real>)

  /** The timestamp and attribute value of every record the channel counts, in order. */
  function MatchSamples(records: seq<LogRecord>, ch: Channel): seq<Sample> {
    if records == [] then []
    else
      var last := records[|records| - 1];
      MatchSamples(records[..|records| - 1], ch) +
        (if Matches(last.message, ch) then [Sample(last.timestamp, Attr(last.message, ch.field))] else [])
  }

  /** Elements 3, 6, 9, ... (1-based) of s: the matches whose count is a multiple of 3. */
  function EveryThird<T>(s: seq<T>): (r: seq<T>)
    ensures |r| == |s| / 3
    ensures forall j :: 0 <= j < |r| ==> r[j] == s[3 * j + 2]
  {
    seq(|s| / 3, j requires 0 <= j < |s| / 3 => s[3 * j + 2])
  }

  lemma EveryThirdSnoc<T>(s: seq<T>, x: T)
    ensures EveryThird(s + [x]) == if (|s| + 1) % 3 == 0 then EveryThird(s) + [x] else EveryThird(s)
  {
    var r := EveryThird(s + [x]);
    if (|s| + 1) % 3 == 0 {
      assert |r| == |EveryThird(s)| + 1;
      assert r[|r| - 1] == x;
    } else {
      assert |r| == |EveryThird(s)|;
    }
  }

  lemma EveryThirdPrefix<T>(s: seq<T>, n: nat)
    requires n <= |s|
    ensures |EveryThird(s[..n])| <= |EveryThird(s)|
    ensures forall j :: 0 <= j < |EveryThird(s[..n])| ==> EveryThird(s[..n])[j] == EveryThird(s)[j]
  {
  }

  lemma {:induction false} MatchSamplesPrefix(records: seq<LogRecord>, ch: Channel, n: nat)
    requires n <= |records|
    ensures |MatchSamples(records[..n], ch)| <= |MatchSamples(records, ch)|
    ensures MatchSamples(records[..n], ch) == MatchSamples(records, ch)[..|MatchSamples(records[..n], ch)|]
    decreases |records|
  {
    if n < |records| {
      var init := records[..|records| - 1];
      assert records[..n] == init[..n];
      MatchSamplesPrefix(init, ch, n);
    } else {
      assert records[..n] == records;
    }
  }

  /** The series holds exactly the given samples, all of them with a value. */
  ghost predicate Holds(s: Series, samples: seq<Sample>) {
    |s.times| == |samples| && |s.values| == |samples| &&
    forall j :: 0 <= j < |samples| ==> s.times[j] == samples[j].time && samples[j].value == Some(s.values[j])
  }

  /** The records a channel has been offered when the scan has handed every
      record before i to every channel and record i to the channels before k. */
  function Seen(records: seq<LogRecord>, i: nat, k: nat, c: nat): seq<LogRecord>
    requires i <= |records| && (k > 0 ==> i < |records|)
  {
    if c < k then records[..i + 1] else records[..i]
  }

  /** What one channel holds after it has been offered the records seen: its
      match count and every third match as a sample. */
  ghost predicate ChannelState(ch: Channel, seen: seq<LogRecord>, count: nat, s: Series) {
    count == |MatchSamples(seen, ch)| && Holds(s, EveryThird(MatchSamples(seen, ch)))
  }

  /** The state of read_channel_samples at that point of the scan. */
  ghost predicate Offered(records: seq<LogRecord>, channels: seq<Channel>, i: nat, k: nat,
                          counts: seq<nat>, series: seq<Series>)
  {
    i <= |records| && k <= |channels| && (k > 0 ==> i < |records|) &&
    |counts| == |channels| && |series| == |channels| &&
    forall c :: 0 <= c < |channels| ==> ChannelState(channels[c], Seen(records, i, k, c), counts[c], series[c])
  }

  /** No series has yet reached maxPoints samples (an empty one never stops the scan). */
  predicate BelowCap(series: seq<Series>, maxPoints: int) {
    forall c :: 0 <= c < |series| ==> |series[c].times| == 0 || |series[c].times| < maxPoints
  }

  /** Some sample a channel keeps (every third match) has the value None. */
  ghost predicate KeepsNone(samples: seq<Sample>) {
    exists j :: 0 <= j < |EveryThird(samples)| && EveryThird(samples)[j].value.None?
  }

  /** Every series has at most maxPoints samples (at most one when maxPoints < 1). */
  predicate WithinCap(series: seq<Series>, maxPoints: int) {
    forall c :: 0 <= c < |series| ==> |series[c].times| <= if maxPoints < 1 then 1 else maxPoints
  }

  /** read_channel_samples returns at record i, channel k - 1: that record is
      the channel's sample that brings it to maxPoints, while every other
      channel is still below the cap. */
  ghost predicate FullAt(records: seq<LogRecord>, channels: seq<Channel>, i: nat, k: nat,
                         counts: seq<nat>, series: seq<Series>, maxPoints: int)
  {
    i < |records| && 0 < k <= |channels| && Offered(records, channels, i, k, counts, series) &&
    Matches(records[i].message, channels[k - 1]) && counts[k - 1] % 3 == 0 &&
    |series[k - 1].times| >= maxPoints && WithinCap(series, maxPoints) &&
    forall c :: 0 <= c < |series| && c != k - 1 ==> |series[c].times| == 0 || |series[c].times| < maxPoints
  }

  /** read_channel_samples raises at record i, channel c: no channel has reached
      the cap yet, and record i is a sample of channel c whose attribute is None. */
  ghost predicate NoneAt(records: seq<LogRecord>, channels: seq<Channel>, i: nat, c: nat,
                         counts: seq<nat>, series: seq<Series>, maxPoints: int)
  {
    i < |records| && c < |channels| && Offered(records, channels, i, c, counts, series) &&
    BelowCap(series, maxPoints) && Matches(records[i].message, channels[c]) &&
    (counts[c] + 1) % 3 == 0 && Attr(records[i].message, channels[c].field).None?
  }

  /** How offering one record to every channel ended. */
  datatype Offer = Continue | Full | NoneValue(channel: string)

  /** The inner loop of read_channel_samples: record i is offered to every
      channel in order, stopping early when a channel that keeps a sample holds
      None (the TypeError of float(None)) or reaches maxPoints samples. */
  method OfferRecord(records: seq<LogRecord>, channels: seq<Channel>, i: nat, counts0: seq<nat>,
                     series0: seq<Series>, maxPoints: int)
    returns (outcome: Offer, counts: seq<nat>, series: seq<Series>)
    requires i < |records| && Offered(records, channels, i, 0, counts0, series0) && BelowCap(series0, maxPoints)
    ensures outcome.Continue? ==> Offered(records, channels, i + 1, 0, counts, series) && BelowCap(series, maxPoints)
    ensures outcome.Full? ==>
              (exists k :: Offered(records, channels, i, k, counts, series)) && WithinCap(series, maxPoints) &&
              exists c :: 0 <= c < |series| && |series[c].times| >= maxPoints
    ensures outcome.Full? ==> exists k: nat :: FullAt(records, channels, i, k, counts, series, maxPoints)
    ensures outcome.NoneValue? ==> exists c :: 0 <= c < |channels| && KeepsNone(MatchSamples(records, channels[c]))
    ensures outcome.NoneValue? ==>
              exists c: nat :: c < |channels| && NoneAt(records, channels, i, c, counts, series, maxPoints) &&
                               outcome.channel == channels[c].name
  {
    counts, series := counts0, series0;
    for k := 0 to |channels|
      invariant Offered(records, channels, i, k, counts, series)
      invariant BelowCap(series, maxPoints)
    {
      outcome, counts, series := OfferToChannel(records, channels, i, k, counts, series, maxPoints);
      if outcome.Full? {
        assert Offered(records, channels, i, k + 1, counts, series) && |series[k].times| >= maxPoints;
        return;
      }
      if outcome.NoneValue? {
        return;
      }
    }
    OfferedNextRecord(records, channels, i, counts, series);
    outcome := Continue;
  }

  /** One step of the inner loop: record i offered to channel k. Continue means
      the loop goes on to channel k + 1. */
  method OfferToChannel(records: seq<LogRecord>, channels: seq<Channel>, i: nat, k: nat, counts0: seq<nat>,
                        series0: seq<Series>, maxPoints: int)
    returns (outcome: Offer, counts: seq<nat>, series: seq<Series>)
    requires i < |records| && k < |channels|
    requires Offered(records, channels, i, k, counts0, series0) && BelowCap(series0, maxPoints)
    ensures outcome.Continue? ==> Offered(records, channels, i, k + 1, counts, series) && BelowCap(series, maxPoints)
    ensures outcome.Full? ==> FullAt(records, channels, i, k + 1, counts, series, maxPoints)
    ensures outcome.NoneValue? ==>
              NoneAt(records, channels, i, k, counts, series, maxPoints) && outcome.channel == channels[k].name &&
              KeepsNone(MatchSamples(records, channels[k]))
  {
    counts, series := counts0, series0;
    var record := records[i];
    var ch := channels[k];
    OfferedAt(records, channels, i, k, counts, series);
    ChannelStep(records, ch, i, counts[k], series[k]);
    if record.message.kind != ch.msgType || !HasAttr(record.message, ch.field) {
      OfferedAdvance(records, channels, i, k, counts, series, counts[k], series[k]);
      return Continue, counts, series;
    }
    if (counts[k] + 1) % 3 != 0 {
      OfferedAdvance(records, channels, i, k, counts, series, counts[k] + 1, series[k]);
      return Continue, counts[k := counts[k] + 1], series;
    }
    var value := Attr(record.message, ch.field);
    if value.None? {
      ErrorIsKeptNone(records, ch, i);
      return NoneValue(ch.name), counts, series;
    }
    var grown := Series(series[k].times + [record.timestamp], series[k].values + [value.value]);
    OfferedAdvance(records, channels, i, k, counts, series, counts[k] + 1, grown);
    counts := counts[k := counts[k] + 1];
    series := series[k := grown];
    if |series[k].times| >= maxPoints {
      return Full, counts, series;
    }
    outcome := Continue;
  }

  /** read_channel_samples: for each channel, keeps every third record of its
      message type that has its attribute, and stops as soon as one channel has
      maxPoints samples. Channels are indexed by position; the dictionary of the
      source has one entry per label. */
  method ReadChannelSamples(t: Trace, channels: seq<Channel>, maxPoints: int)
    returns (r: Result<seq<Series>, SampleError>)
    ensures r.Ok? ==> |r.value| == |channels| && WithinCap(r.value, maxPoints)
    ensures r.Ok? ==> forall c :: 0 <= c < |channels| ==> |r.value[c].times| == |r.value[c].values|
    ensures r.Ok? ==> exists i: nat, k: nat, counts :: Offered(Records(t), channels, i, k, counts, r.value)
    ensures r.Ok? && (forall c :: 0 <= c < |channels| ==> |r.value[c].times| < maxPoints) ==>
              exists counts :: Offered(Records(t), channels, |t.decoded|, 0, counts, r.value)
    ensures r.Err? ==> exists c :: 0 <= c < |channels| && KeepsNone(MatchSamples(Records(t), channels[c]))
    ensures ReadsTo(Records(t), channels, maxPoints, r)
  {
    var records := IterRecords(t);
    var counts: seq<nat> := seq(|channels|, _ => 0);
    var series := seq(|channels|, _ => Series([], []));
    for i := 0 to |records|
      invariant Offered(records, channels, i, 0, counts, series)
      invariant BelowCap(series, maxPoints)
    {
      var outcome;
      outcome, counts, series := OfferRecord(records, channels, i, counts, series, maxPoints);
      match outcome
      case NoneValue(name) =>
        return Err(FieldIsNone(name));
      case Full =>
        HoldsLengths(records, channels, counts, series);
        return Ok(series);
      case Continue =>
    }
    assert records[..|records|] == records;
    HoldsLengths(records, channels, counts, series);
    return Ok(series);
  }

  /** Every series is a time list and a value list of the same length. */
  lemma HoldsLengths(records: seq<LogRecord>, channels: seq<Channel>, counts: seq<nat>, series: seq<Series>)
    requires exists i: nat, k: nat :: Offered(records, channels, i, k, counts, series)
    ensures forall c :: 0 <= c < |channels| ==> |series[c].times| == |series[c].values|
  {
    var i: nat, k: nat :| Offered(records, channels, i, k, counts, series);
    forall c | 0 <= c < |channels| ensures |series[c].times| == |series[c].values| {
      assert ChannelState(channels[c], Seen(records, i, k, c), counts[c], series[c]);
    }
  }

  lemma OfferedAt(records: seq<LogRecord>, channels: seq<Channel>, i: nat, k: nat,
                  counts: seq<nat>, series: seq<Series>)
    requires Offered(records, channels, i, k, counts, series) && k < |channels| && i < |records|
    ensures ChannelState(channels[k], records[..i], counts[k], series[k])
  {
    assert Seen(records, i, k, k) == records[..i];
  }

  /** Offering record i to a channel: skipped when it does not match, counted
      when it does, and kept as a sample when the count reaches a multiple of 3. */
  lemma ChannelStep(records: seq<LogRecord>, ch: Channel, i: nat, count: nat, s: Series)
    requires i < |records| && ChannelState(ch, records[..i], count, s)
    ensures !Matches(records[i].message, ch) ==> ChannelState(ch, records[..i + 1], count, s)
    ensures (Matches(records[i].message, ch) && (count + 1) % 3 != 0) ==>
              ChannelState(ch, records[..i + 1], count + 1, s)
    ensures (Matches(records[i].message, ch) && (count + 1) % 3 == 0 && Attr(records[i].message, ch.field).Some?) ==>
              ChannelState(ch, records[..i + 1], count + 1,
                           Series(s.times + [records[i].timestamp], s.values + [Attr(records[i].message, ch.field).value]))
  {
    MatchSamplesStep(records, ch, i);
    var x := Sample(records[i].timestamp, Attr(records[i].message, ch.field));
    if Matches(records[i].message, ch) {
      HoldsSnoc(s, MatchSamples(records[..i], ch), x);
    }
  }

  lemma HoldsSnoc(s: Series, samples: seq<Sample>, x: Sample)
    requires Holds(s, EveryThird(samples))
    ensures (|samples| + 1) % 3 != 0 ==> Holds(s, EveryThird(samples + [x]))
    ensures ((|samples| + 1) % 3 == 0 && x.value.Some?) ==>
              Holds(Series(s.times + [x.time], s.values + [x.value.value]), EveryThird(samples + [x]))
  {
    EveryThirdSnoc(samples, x);
  }

  /** Offering record i to channel k changes channel k's state and nothing else. */
  lemma OfferedAdvance(records: seq<LogRecord>, channels: seq<Channel>, i: nat, k: nat,
                       counts: seq<nat>, series: seq<Series>, count: nat, s: Series)
    requires Offered(records, channels, i, k, counts, series) && k < |channels| && i < |records|
    requires ChannelState(channels[k], records[..i + 1], count, s)
    ensures Offered(records, channels, i, k + 1, counts[k := count], series[k := s])
    ensures count == counts[k] ==> counts[k := count] == counts
    ensures s == series[k] ==> series[k := s] == series
  {
    forall c | 0 <= c < |channels|
      ensures ChannelState(channels[c], Seen(records, i, k + 1, c), counts[k := count][c], series[k := s][c])
    {
      if c != k {
        assert Seen(records, i, k + 1, c) == Seen(records, i, k, c);
      }
    }
  }

  lemma MatchSamplesStep(records: seq<LogRecord>, ch: Channel, i: nat)
    requires i < |records|
    ensures MatchSamples(records[..i + 1], ch) ==
              MatchSamples(records[..i], ch) +
              (if Matches(records[i].message, ch) then [Sample(records[i].timestamp, Attr(records[i].message, ch.field))] else [])
  {
    assert records[..i + 1][..i] == records[..i];
  }

  lemma OfferedNextRecord(records: seq<LogRecord>, channels: seq<Channel>, i: nat,
                          counts: seq<nat>, series: seq<Series>)
    requires i < |records| && Offered(records, channels, i, |channels|, counts, series)
    ensures Offered(records, channels, i + 1, 0, counts, series)
  {
    forall c | 0 <= c < |channels| ensures Seen(records, i, |channels|, c) == Seen(records, i + 1, 0, c) {
    }
  }

  lemma ErrorIsKeptNone(records: seq<LogRecord>, ch: Channel, i: nat)
    requires i < |records| && Matches(records[i].message, ch)
    requires (|MatchSamples(records[..i], ch)| + 1) % 3 == 0
    requires Attr(records[i].message, ch.field).None?
    ensures KeepsNone(MatchSamples(records, ch))
  {
    MatchSamplesStep(records, ch, i);
    var s := MatchSamples(records[..i + 1], ch);
    EveryThirdSnoc(MatchSamples(records[..i], ch), Sample(records[i].timestamp, Attr(records[i].message, ch.field)));
    assert EveryThird(s)[|EveryThird(s)| - 1].value.None?;
    MatchSamplesPrefix(records, ch, i + 1);
    var all := MatchSamples(records, ch);
    assert s == all[..|s|];
    EveryThirdPrefix(all, |s|);
  }

  // Where read_channel_samples stops is determined by the records: the
  // predicates FullAt and NoneAt, and the end of the records with every
  // channel below the cap, hold at one point of the scan only.

  /** The matches a channel has seen grow with the records read. */
  lemma MatchesGrow(records: seq<LogRecord>, ch: Channel, n: nat, p: nat)
    requires n <= p <= |records|
    ensures |MatchSamples(records[..n], ch)| <= |MatchSamples(records[..p], ch)|
    ensures MatchSamples(records[..n], ch) == MatchSamples(records[..p], ch)[..|MatchSamples(records[..n], ch)|]
  {
    assert records[..p][..n] == records[..n];
    MatchSamplesPrefix(records[..p], ch, n);
  }

  /** A channel's count is its number of matches and its series a third of them. */
  lemma ChannelSize(records: seq<LogRecord>, channels: seq<Channel>, i: nat, k: nat,
                    counts: seq<nat>, series: seq<Series>, c: nat)
    requires Offered(records, channels, i, k, counts, series) && c < |channels|
    ensures counts[c] == |MatchSamples(Seen(records, i, k, c), channels[c])|
    ensures |series[c].times| == counts[c] / 3
  {
    assert ChannelState(channels[c], Seen(records, i, k, c), counts[c], series[c]);
  }

  /** A channel that has kept the sample of some match holds a value for it. */
  lemma KeptSampleHasValue(records: seq<LogRecord>, ch: Channel, n: nat, p: nat, s: Series)
    requires n <= p <= |records| && Holds(s, EveryThird(MatchSamples(records[..p], ch)))
    requires |MatchSamples(records[..n], ch)| % 3 == 0 && |MatchSamples(records[..n], ch)| > 0
    ensures MatchSamples(records[..n], ch)[|MatchSamples(records[..n], ch)| - 1].value.Some?
  {
    MatchesGrow(records, ch, n, p);
    var m := |MatchSamples(records[..n], ch)|;
    var all := MatchSamples(records[..p], ch);
    assert EveryThird(all)[m / 3 - 1] == all[m - 1];
  }

  /** Record i is a match of the channel, so the matches up to it are one more. */
  lemma MatchAt(records: seq<LogRecord>, ch: Channel, i: nat)
    requires i < |records| && Matches(records[i].message, ch)
    ensures |MatchSamples(records[..i + 1], ch)| == |MatchSamples(records[..i], ch)| + 1
    ensures MatchSamples(records[..i + 1], ch)[|MatchSamples(records[..i], ch)|] ==
              Sample(records[i].timestamp, Attr(records[i].message, ch.field))
  {
    MatchSamplesStep(records, ch, i);
  }

  /** Two FullAt points, the first not after the second, are the same point. */
  lemma FullAtOrdered(records: seq<LogRecord>, channels: seq<Channel>, maxPoints: int,
                      i: nat, k: nat, counts: seq<nat>, series: seq<Series>,
                      i2: nat, k2: nat, counts2: seq<nat>, series2: seq<Series>)
    requires FullAt(records, channels, i, k, counts, series, maxPoints)
    requires FullAt(records, channels, i2, k2, counts2, series2, maxPoints)
    requires i < i2 || (i == i2 && k <= k2)
    ensures i == i2 && k == k2
  {
    var c := k - 1;
    var ch := channels[c];
    var p2 := if c < k2 then i2 + 1 else i2;
    assert Seen(records, i2, k2, c) == records[..p2];
    assert Seen(records, i, k, c) == records[..i + 1];
    ChannelSize(records, channels, i, k, counts, series, c);
    ChannelSize(records, channels, i2, k2, counts2, series2, c);
    MatchAt(records, ch, i);
    MatchesGrow(records, ch, i + 1, p2);
    if i < i2 {
      assert c == k2 - 1;
      MatchAt(records, ch, i2);
      MatchesGrow(records, ch, i + 1, i2);
    }
  }

  /** read_channel_samples can return on a full channel at one point only. */
  lemma FullAtUnique(records: seq<LogRecord>, channels: seq<Channel>, maxPoints: int,
                     i: nat, k: nat, counts: seq<nat>, series: seq<Series>,
                     i2: nat, k2: nat, counts2: seq<nat>, series2: seq<Series>)
    requires FullAt(records, channels, i, k, counts, series, maxPoints)
    requires FullAt(records, channels, i2, k2, counts2, series2, maxPoints)
    ensures i == i2 && k == k2 && series == series2
  {
    if i < i2 || (i == i2 && k <= k2) {
      FullAtOrdered(records, channels, maxPoints, i, k, counts, series, i2, k2, counts2, series2);
    } else {
      FullAtOrdered(records, channels, maxPoints, i2, k2, counts2, series2, i, k, counts, series);
    }
    OfferedDetermines(records, channels, i, k, counts, series, counts2, series2);
  }

  /** read_channel_samples can raise on a None value at one point only. */
  lemma NoneAtUnique(records: seq<LogRecord>, channels: seq<Channel>, maxPoints: int,
                     i: nat, c: nat, counts: seq<nat>, series: seq<Series>,
                     i2: nat, c2: nat, counts2: seq<nat>, series2: seq<Series>)
    requires NoneAt(records, channels, i, c, counts, series, maxPoints)
    requires NoneAt(records, channels, i2, c2, counts2, series2, maxPoints)
    ensures i == i2 && c == c2
  {
    KeptNoneStops(records, channels, maxPoints, i, c, counts, series, i2, c2, counts2, series2);
    KeptNoneStops(records, channels, maxPoints, i2, c2, counts2, series2, i, c, counts, series);
  }

  /** A state of the scan holds no None value, so it lies at or before the
      first sample whose attribute is None. */
  lemma KeptNoneStops(records: seq<LogRecord>, channels: seq<Channel>, maxPoints: int,
                      i: nat, c: nat, counts: seq<nat>, series: seq<Series>,
                      i2: nat, k2: nat, counts2: seq<nat>, series2: seq<Series>)
    requires NoneAt(records, channels, i, c, counts, series, maxPoints)
    requires Offered(records, channels, i2, k2, counts2, series2)
    ensures i2 < i || (i2 == i && k2 <= c)
  {
    if i < i2 || (i == i2 && c < k2) {
      var ch := channels[c];
      var p2 := if c < k2 then i2 + 1 else i2;
      assert Seen(records, i2, k2, c) == records[..p2];
      assert ChannelState(ch, records[..p2], counts2[c], series2[c]);
      assert Seen(records, i, c, c) == records[..i];
      ChannelSize(records, channels, i, c, counts, series, c);
      MatchAt(records, ch, i);
      KeptSampleHasValue(records, ch, i + 1, p2, series2[c]);
      assert false;
    }
  }

  /** Once a channel has filled at (i, k), it is full at every later point. */
  lemma FullStays(records: seq<LogRecord>, channels: seq<Channel>, maxPoints: int,
                  i: nat, k: nat, counts: seq<nat>, series: seq<Series>,
                  i2: nat, k2: nat, counts2: seq<nat>, series2: seq<Series>)
    requires FullAt(records, channels, i, k, counts, series, maxPoints)
    requires Offered(records, channels, i2, k2, counts2, series2)
    requires i < i2 || (i == i2 && k <= k2)
    ensures |series2[k - 1].times| >= maxPoints && |series2[k - 1].times| >= 1
  {
    var c := k - 1;
    var ch := channels[c];
    var p2 := if c < k2 then i2 + 1 else i2;
    assert Seen(records, i2, k2, c) == records[..p2];
    assert Seen(records, i, k, c) == records[..i + 1];
    ChannelSize(records, channels, i, k, counts, series, c);
    ChannelSize(records, channels, i2, k2, counts2, series2, c);
    MatchAt(records, ch, i);
    MatchesGrow(records, ch, i + 1, p2);
  }

  /** Two scan states at the same point hold the same counts and series. */
  lemma OfferedDetermines(records: seq<LogRecord>, channels: seq<Channel>, i: nat, k: nat,
                          counts: seq<nat>, series: seq<Series>, counts2: seq<nat>, series2: seq<Series>)
    requires Offered(records, channels, i, k, counts, series)
    requires Offered(records, channels, i, k, counts2, series2)
    ensures counts == counts2 && series == series2
  {
    forall c | 0 <= c < |channels| ensures counts[c] == counts2[c] && series[c] == series2[c] {
      var samples := EveryThird(MatchSamples(Seen(records, i, k, c), channels[c]));
      assert Holds(series[c], samples) && Holds(series2[c], samples);
      assert series[c].times == series2[c].times;
      assert series[c].values == series2[c].values;
    }
  }

  /** What read_channel_samples returns: the series when every record has been
      read with no channel full, the series at the point where one filled, or
      the error at the first sampled None. */
  ghost predicate ReadsTo(records: seq<LogRecord>, channels: seq<Channel>, maxPoints: int,
                          r: Result<seq<Series>, SampleError>)
  {
    if r.Ok? then
      (exists counts :: Offered(records, channels, |records|, 0, counts, r.value) && BelowCap(r.value, maxPoints)) ||
      exists i: nat, k: nat, counts :: FullAt(records, channels, i, k, counts, r.value, maxPoints)
    else
      exists i: nat, c: nat, counts, series :: c < |channels| &&
        NoneAt(records, channels, i, c, counts, series, maxPoints) && r.error == FieldIsNone(channels[c].name)
  }

  /** Reading every record with no channel full leaves no other result. */
  lemma CompleteIsOnly(records: seq<LogRecord>, channels: seq<Channel>, maxPoints: int,
                       counts: seq<nat>, series: seq<Series>, r: Result<seq<Series>, SampleError>)
    requires Offered(records, channels, |records|, 0, counts, series) && BelowCap(series, maxPoints)
    requires ReadsTo(records, channels, maxPoints, r)
    ensures r == Ok(series)
  {
    if r.Err? {
      var i: nat, c: nat, countsN, seriesN :| c < |channels| && NoneAt(records, channels, i, c, countsN, seriesN, maxPoints);
      KeptNoneStops(records, channels, maxPoints, i, c, countsN, seriesN, |records|, 0, counts, series);
      assert false;
    } else if counts2 :| Offered(records, channels, |records|, 0, counts2, r.value) && BelowCap(r.value, maxPoints) {
      OfferedDetermines(records, channels, |records|, 0, counts, series, counts2, r.value);
    } else {
      var i: nat, k: nat, countsF :| FullAt(records, channels, i, k, countsF, r.value, maxPoints);
      FullStays(records, channels, maxPoints, i, k, countsF, r.value, |records|, 0, counts, series);
      assert false;
    }
  }

  /** A channel filling at (i, k) leaves no other result. */
  lemma FullIsOnly(records: seq<LogRecord>, channels: seq<Channel>, maxPoints: int,
                   i: nat, k: nat, counts: seq<nat>, series: seq<Series>, r: Result<seq<Series>, SampleError>)
    requires FullAt(records, channels, i, k, counts, series, maxPoints)
    requires ReadsTo(records, channels, maxPoints, r)
    ensures r == Ok(series)
  {
    if r.Err? {
      var i2: nat, c2: nat, countsN, seriesN :| c2 < |channels| && NoneAt(records, channels, i2, c2, countsN, seriesN, maxPoints);
      KeptNoneStops(records, channels, maxPoints, i2, c2, countsN, seriesN, i, k, counts, series);
      FullStays(records, channels, maxPoints, i, k, counts, series, i2, c2, countsN, seriesN);
      assert false;
    } else if counts2 :| Offered(records, channels, |records|, 0, counts2, r.value) && BelowCap(r.value, maxPoints) {
      FullStays(records, channels, maxPoints, i, k, counts, series, |records|, 0, counts2, r.value);
      assert false;
    } else {
      var i2: nat, k2: nat, counts2 :| FullAt(records, channels, i2, k2, counts2, r.value, maxPoints);
      FullAtUnique(records, channels, maxPoints, i, k, counts, series, i2, k2, counts2, r.value);
    }
  }

  /** A None sampled at (i, c) leaves no other result. */
  lemma NoneIsOnly(records: seq<LogRecord>, channels: seq<Channel>, maxPoints: int,
                   i: nat, c: nat, counts: seq<nat>, series: seq<Series>, r: Result<seq<Series>, SampleError>)
    requires NoneAt(records, channels, i, c, counts, series, maxPoints)
    requires ReadsTo(records, channels, maxPoints, r)
    ensures r == Err(FieldIsNone(channels[c].name))
  {
    if r.Ok? {
      if counts2 :| Offered(records, channels, |records|, 0, counts2, r.value) && BelowCap(r.value, maxPoints) {
        CompleteIsOnly(records, channels, maxPoints, counts2, r.value, Err(FieldIsNone(channels[c].name)));
      } else {
        var i2: nat, k2: nat, counts2 :| FullAt(records, channels, i2, k2, counts2, r.value, maxPoints);
        FullIsOnly(records, channels, maxPoints, i2, k2, counts2, r.value, Err(FieldIsNone(channels[c].name)));
      }
    } else {
      var i2: nat, c2: nat, counts2, series2 :| c2 < |channels| &&
        NoneAt(records, channels, i2, c2, counts2, series2, maxPoints) && r.error == FieldIsNone(channels[c2].name);
      NoneAtUnique(records, channels, maxPoints, i, c, counts, series, i2, c2, counts2, series2);
    }
  }

  /** ReadsTo pins the result down: two results it allows are equal. */
  lemma ReadsToUnique(records: seq<LogRecord>, channels: seq<Channel>, maxPoints: int,
                      r: Result<seq<Series>, SampleError>, r2: Result<seq<Series>, SampleError>)
    requires ReadsTo(records, channels, maxPoints, r) && ReadsTo(records, channels, maxPoints, r2)
    ensures r == r2
  {
    if r.Err? {
      var i: nat, c: nat, counts, series :| c < |channels| &&
        NoneAt(records, channels, i, c, counts, series, maxPoints) && r.error == FieldIsNone(channels[c].name);
      NoneIsOnly(records, channels, maxPoints, i, c, counts, series, r2);
    } else if counts :| Offered(records, channels, |records|, 0, counts, r.value) && BelowCap(r.value, maxPoints) {
      CompleteIsOnly(records, channels, maxPoints, counts, r.value, r2);
    } else {
      var i: nat, k: nat, counts :| FullAt(records, channels, i, k, counts, r.value, maxPoints);
      FullIsOnly(records, channels, maxPoints, i, k, counts, r.value, r2);
    }
  }
}
