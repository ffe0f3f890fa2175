/** The DataFlash parser of core/log_parser.py: timestamp resolution with an
    index fallback, a cached reader that every pass shares, the stride index,
    the summary and the decimated chart series. */
module LogParser {
  import opened Messages

  // ---------------------------------------------------------------------------
  // extract_timestamp

  /** The attributes tried, in order: the microsecond fields, then the millisecond ones. */
  const TimestampFields: seq<Candidate> := [
    Candidate("TimeUS", 1000000.0),
    Candidate("time_usec", 1000000.0),
    Candidate("time_boot_ms", 1000.0),
    Candidate("TimeMS", 1000.0)
  ]

  /** extract_timestamp: the first attribute of the table with a value, scaled to
      seconds, or the message's index when there is none. */
  function ExtractTimestamp(m: Message, fallbackIndex: nat): (r: real)
    ensures (Attr(m, "TimeUS").None? && Attr(m, "time_usec").None? && Attr(m, "time_boot_ms").None? &&
             Attr(m, "TimeMS").None?) ==> r == fallbackIndex as real
    ensures r == fallbackIndex as real ||
            (Attr(m, "TimeUS").Some? && r == Attr(m, "TimeUS").value / 1000000.0) ||
            (Attr(m, "time_usec").Some? && r == Attr(m, "time_usec").value / 1000000.0) ||
            (Attr(m, "time_boot_ms").Some? && r == Attr(m, "time_boot_ms").value / 1000.0) ||
            (Attr(m, "TimeMS").Some? && r == Attr(m, "TimeMS").value / 1000.0)
  {
    var i := FirstValued(m, TimestampFields);
    if i < |TimestampFields| then Attr(m, TimestampFields[i].field).value / TimestampFields[i].divisor
    else fallbackIndex as real
  }

  /** The priority order spelled out field by field: an attribute set to None is skipped. */
  lemma ExtractTimestampOrder(m: Message, fallbackIndex: nat)
    ensures Attr(m, "TimeUS").Some? ==> ExtractTimestamp(m, fallbackIndex) == Attr(m, "TimeUS").value / 1000000.0
    ensures (Attr(m, "TimeUS").None? && Attr(m, "time_usec").Some?) ==>
              ExtractTimestamp(m, fallbackIndex) == Attr(m, "time_usec").value / 1000000.0
    ensures (Attr(m, "TimeUS").None? && Attr(m, "time_usec").None? && Attr(m, "time_boot_ms").Some?) ==>
              ExtractTimestamp(m, fallbackIndex) == Attr(m, "time_boot_ms").value / 1000.0
    ensures (Attr(m, "TimeUS").None? && Attr(m, "time_usec").None? && Attr(m, "time_boot_ms").None? &&
             Attr(m, "TimeMS").Some?) ==>
              ExtractTimestamp(m, fallbackIndex) == Attr(m, "TimeMS").value / 1000.0
    ensures (Attr(m, "TimeUS").None? && Attr(m, "time_usec").None? && Attr(m, "time_boot_ms").None? &&
             Attr(m, "TimeMS").None?) ==> ExtractTimestamp(m, fallbackIndex) == fallbackIndex as real
  {
    assert TimestampFields[0].field == "TimeUS" && TimestampFields[1].field == "time_usec";
    assert TimestampFields[2].field == "time_boot_ms" && TimestampFields[3].field == "TimeMS";
  }

  // ---------------------------------------------------------------------------
  // iter_messages

  /** What iter_messages yields: the message's position in the log, its timestamp and the message. */
  datatype Entry = Entry(index: nat, timestamp: real, msg: Message)

  function TimeAt(log: seq<Message>, i: nat): real
    requires i < |log|
  {
    ExtractTimestamp(log[i], i)
  }

  function Entries(log: seq<Message>): (r: seq<Entry>)
    ensures |r| == |log|
    ensures forall i :: 0 <= i < |r| ==> r[i] == Entry(i, TimeAt(log, i), log[i])
  {
    seq(|log|, i requires 0 <= i < |log| => Entry(i, TimeAt(log, i), log[i]))
  }

  // ---------------------------------------------------------------------------
  // LogIndex and build_index

  datatype LogIndex = LogIndex(timestamps: seq<real>, messageNumbers: seq<int>) {
    /** start: the first timestamp, or 0.0 when there is none. */
    function Start(): (r: real)
      ensures timestamps == [] ==> r == 0.0
      ensures timestamps != [] ==> r in timestamps
    {
      if timestamps == [] then 0.0 else timestamps[0]
    }

    /** end: the last timestamp, or 0.0 when there is none. */
    function End(): (r: real)
      ensures timestamps == [] ==> r == 0.0
      ensures timestamps != [] ==> r in timestamps
    {
      if timestamps == [] then 0.0 else timestamps[|timestamps| - 1]
    }
  }

  /** idx % stride with stride 0 raised ZeroDivisionError. */
  datatype IndexError = StrideIsZero

  /** The timestamps of the messages at the given positions. */
  function TimesAt(log: seq<Message>, numbers: seq<nat>): (r: seq<real>)
    requires forall j :: 0 <= j < |numbers| ==> numbers[j] < |log|
    ensures |r| == |numbers|
    ensures forall j :: 0 <= j < |r| ==> r[j] == TimeAt(log, numbers[j])
  {
    seq(|numbers|, j requires 0 <= j < |numbers| => TimeAt(log, numbers[j]))
  }

  /** build_index: every message whose index is a multiple of stride, then the
      last message when its timestamp differs from the last one sampled. */
  function IndexOf(log: seq<Message>, stride: int): Result<LogIndex, IndexError> {
    if log == [] then Ok(LogIndex([], []))
    else if stride == 0 then Err(StrideIsZero)
    else
      var sampled := MultiplesIn(0, |log|, stride);
      var times := TimesAt(log, sampled);
      var last := |log| - 1;
      if times != [] && times[|times| - 1] != TimeAt(log, last) then
        Ok(LogIndex(times + [TimeAt(log, last)], sampled + [last]))
      else
        Ok(LogIndex(times, sampled))
  }

  lemma {:induction false} MultiplesStartAtZero(n: nat, stride: int)
    requires n > 0 && stride != 0
    ensures MultiplesIn(0, n, stride) != [] && MultiplesIn(0, n, stride)[0] == 0
  {
    if n == 1 {
      assert MultiplesIn(0, 0, stride) == [];
    } else {
      MultiplesStartAtZero(n - 1, stride);
    }
  }

  /** The multiples of stride below n, then one more message number. */
  lemma SnocIncreasing(m: seq<nat>, last: nat)
    requires forall a, b :: 0 <= a < b < |m| ==> m[a] < m[b]
    requires m != [] && m[|m| - 1] < last
    ensures forall a, b :: 0 <= a < b < |m + [last]| ==> (m + [last])[a] < (m + [last])[b]
  {
    forall a, b | 0 <= a < b < |m + [last]| ensures (m + [last])[a] < (m + [last])[b] {
      if b == |m| && a < |m| - 1 {
        assert m[a] < m[|m| - 1];
      }
    }
  }

  /** One step of build_index's loop: the multiples of stride and their timestamps grow together. */
  lemma SampleStep(log: seq<Message>, numbers: seq<nat>, i: nat, stride: int)
    requires i < |log| && stride != 0 && numbers == MultiplesIn(0, i, stride)
    ensures MultiplesIn(0, i + 1, stride) == numbers + (if i % stride == 0 then [i] else [])
    ensures TimesAt(log, numbers + [i]) == TimesAt(log, numbers) + [TimeAt(log, i)]
  {
  }

  lemma IndexOfSampled(log: seq<Message>, stride: int)
    ensures stride != 0 ==>
              var sampled := MultiplesIn(0, |log|, stride);
              var times := TimesAt(log, sampled);
              IndexOf(log, stride) ==
                if log != [] && times != [] && times[|times| - 1] != TimeAt(log, |log| - 1) then
                  Ok(LogIndex(times + [TimeAt(log, |log| - 1)], sampled + [|log| - 1]))
                else Ok(LogIndex(times, sampled))
  {
  }

  /** The last message number sampled is the greatest multiple of stride in the log. */
  lemma {:induction false} LastMultiple(hi: nat, stride: int)
    requires hi > 0 && stride != 0
    ensures MultiplesIn(0, hi, stride) != []
    ensures (hi - 1) % stride <= hi - 1
    ensures MultiplesIn(0, hi, stride)[|MultiplesIn(0, hi, stride)| - 1] == (hi - 1) - (hi - 1) % stride
  {
    if (hi - 1) % stride != 0 {
      assert hi > 1;
      LastMultiple(hi - 1, stride);
      ModStep(hi - 2, stride);
    }
  }

  /** Counting up by one raises the remainder by one unless it wraps to 0. */
  lemma ModStep(x: nat, stride: int)
    requires stride != 0 && (x + 1) % stride != 0
    ensures (x + 1) % stride == x % stride + 1
  {
    var size := if stride < 0 then -stride else stride;
    var d := (x + 1) / stride - x / stride;
    var gap := 1 + x % stride - (x + 1) % stride;
    assert d * stride == gap by {
      assert x == (x / stride) * stride + x % stride;
      assert x + 1 == ((x + 1) / stride) * stride + (x + 1) % stride;
      assert d * stride == ((x + 1) / stride) * stride - (x / stride) * stride;
    }
    assert 2 - size <= gap <= size;
    var e := if stride < 0 then -d else d;
    assert e * size == gap;
    ProductBounds(e, size);
  }

  lemma ProductBounds(e: int, size: int)
    requires size > 0
    ensures e >= 1 ==> e * size >= size
    ensures e <= -1 ==> e * size <= -size
  {
    if e >= 1 {
      assert e * size == (e - 1) * size + size;
    } else if e <= -1 {
      assert e * size == (e + 1) * size - size;
    }
  }

  /** The message numbers of the index are the multiples of stride in the log,
      and the last message when its timestamp differs from that of the last
      multiple, (|log| - 1) - (|log| - 1) % stride. */
  lemma IndexOfMembers(log: seq<Message>, stride: int)
    requires log != [] && stride != 0
    ensures (|log| - 1) % stride <= |log| - 1
    ensures var last := |log| - 1;
            forall n :: n in IndexOf(log, stride).value.messageNumbers <==>
              (0 <= n < |log| && n % stride == 0) ||
              (n == last && TimeAt(log, last - last % stride) != TimeAt(log, last))
  {
    var m := MultiplesIn(0, |log|, stride);
    var last := |log| - 1;
    LastMultiple(|log|, stride);
    var extra := if TimeAt(log, last - last % stride) != TimeAt(log, last) then [last] else [];
    var times := TimesAt(log, m);
    assert times[|times| - 1] == TimeAt(log, last - last % stride);
    assert IndexOf(log, stride).value.messageNumbers == m + extra by {
      IndexOfSampled(log, stride);
    }
    MultiplesInMembers(0, |log|, stride);
    forall n ensures n in m + extra <==> (0 <= n < |log| && n % stride == 0) || (n in extra) {
    }
  }

  /** build_index fails exactly for a zero stride over a non-empty log. */
  lemma IndexOfFails(log: seq<Message>, stride: int)
    ensures IndexOf(log, stride).Err? <==> stride == 0 && log != []
    ensures log == [] ==> IndexOf(log, stride) == Ok(LogIndex([], []))
  {
  }

  /** Otherwise: the two lists have the same length, the message numbers
      increase strictly and each timestamp is that of the message it names. The
      numbers are the multiples of stride, plus the last message when its
      timestamp differs from the last sampled one; start and end are the first
      and the last message's timestamps. */
  lemma IndexOfShape(log: seq<Message>, stride: int)
    requires log != [] && stride != 0
    ensures IndexOf(log, stride).Ok?
    ensures var ix := IndexOf(log, stride).value;
            |ix.timestamps| == |ix.messageNumbers| &&
            (forall j :: 0 <= j < |ix.messageNumbers| ==> 0 <= ix.messageNumbers[j] < |log|) &&
            (forall j :: 0 <= j < |ix.messageNumbers| ==> ix.timestamps[j] == TimeAt(log, ix.messageNumbers[j])) &&
            (forall a, b :: 0 <= a < b < |ix.messageNumbers| ==> ix.messageNumbers[a] < ix.messageNumbers[b])
    ensures var ix := IndexOf(log, stride).value;
            var multiples := MultiplesIn(0, |log|, stride);
            multiples != [] &&
            ix.messageNumbers ==
              multiples + (if TimeAt(log, multiples[|multiples| - 1]) != TimeAt(log, |log| - 1) then [|log| - 1] else [])
    ensures IndexOf(log, stride).value.Start() == TimeAt(log, 0)
    ensures IndexOf(log, stride).value.End() == TimeAt(log, |log| - 1)
  {
    MultiplesStartAtZero(|log|, stride);
    MultiplesInMembers(0, |log|, stride);
    var m := MultiplesIn(0, |log|, stride);
    var times := TimesAt(log, m);
    var last := |log| - 1;
    var ix := IndexOf(log, stride).value;
    if times[|times| - 1] != TimeAt(log, last) {
      assert m[|m| - 1] != last;
      assert m[|m| - 1] < last;
      SnocIncreasing(m, last);
      assert ix == LogIndex(times + [TimeAt(log, last)], m + [last]);
    } else {
      assert ix == LogIndex(times, m);
    }
  }

  // ---------------------------------------------------------------------------
  // summarize

  datatype LogInfo = LogInfo(sizeBytes: nat, messageCount: nat, startTime: real, endTime: real, logType: string)

  // ---------------------------------------------------------------------------
  // _append_series and collect_series

  datatype TimeSeries = TimeSeries(name: string, times: seq<real>, values: seq<real>)

  /** A chart series and what feeds it: its key, the message type and the attribute. */
  datatype Source = Source(key: string, msgType: string, field: string)

  /** The six series and their sources, as an independent table. */
  const SeriesSources: seq<Source> := [
    Source("ALT", "BARO", "Alt"),
    Source("GPS_SPEED", "GPS", "Spd"),
    Source("ATT_ROLL", "ATT", "Roll"),
    Source("ATT_PITCH", "ATT", "Pitch"),
    Source("ATT_YAW", "ATT", "Yaw"),
    Source("THR", "RCOU", "C3")
  ]

  const SourceKeys: set<string> := {"ALT", "GPS_SPEED", "ATT_ROLL", "ATT_PITCH", "ATT_YAW", "THR"}

  /** The value a message brings to a series: the attribute of the right message type, unless None. */
  function SampleFor(src: Source, m: Message): Option<real> {
    if m.kind == src.msgType then Attr(m, src.field) else None
  }

  /** A series with one more point when there is a sample. */
  function Extend(s: TimeSeries, timestamp: real, sample: Option<real>): TimeSeries {
    if sample.Some? then TimeSeries(s.name, s.times + [timestamp], s.values + [sample.value]) else s
  }

  /** The series _append_series writes to for this message. */
  ghost predicate TouchedPresent(series: map<string, TimeSeries>, m: Message) {
    forall j :: 0 <= j < |SeriesSources| && SampleFor(SeriesSources[j], m).Some? ==> SeriesSources[j].key in series
  }

  function Push(series: map<string, TimeSeries>, key: string, timestamp: real, value: real): map<string, TimeSeries>
    requires key in series
  {
    series[key := TimeSeries(series[key].name, series[key].times + [timestamp], series[key].values + [value])]
  }

  /** _append_series: by message type, appends the point to the matching series;
      an ATT message feeds roll, pitch and yaw each on its own. Every series
      the table says this message feeds grows by that sample and no other
      series changes. */
  function AppendSeries(series: map<string, TimeSeries>, timestamp: real, m: Message): (r: map<string, TimeSeries>)
    requires TouchedPresent(series, m)
    ensures r.Keys == series.Keys
    ensures forall j :: 0 <= j < |SeriesSources| && SeriesSources[j].key in series ==>
              r[SeriesSources[j].key] == Extend(series[SeriesSources[j].key], timestamp, SampleFor(SeriesSources[j], m))
    ensures forall key :: key in series && key !in SourceKeys ==> r[key] == series[key]
  {
    assert SeriesSources[0] == Source("ALT", "BARO", "Alt") && SeriesSources[1] == Source("GPS_SPEED", "GPS", "Spd");
    assert SeriesSources[2] == Source("ATT_ROLL", "ATT", "Roll") && SeriesSources[3] == Source("ATT_PITCH", "ATT", "Pitch");
    assert SeriesSources[4] == Source("ATT_YAW", "ATT", "Yaw") && SeriesSources[5] == Source("THR", "RCOU", "C3");
    if m.kind == "BARO" then
      var value := Attr(m, "Alt");
      if value.Some? then Push(series, "ALT", timestamp, value.value) else series
    else if m.kind == "GPS" then
      var value := Attr(m, "Spd");
      if value.Some? then Push(series, "GPS_SPEED", timestamp, value.value) else series
    else if m.kind == "ATT" then
      var roll := Attr(m, "Roll");
      var pitch := Attr(m, "Pitch");
      var yaw := Attr(m, "Yaw");
      var s1 := if roll.Some? then Push(series, "ATT_ROLL", timestamp, roll.value) else series;
      var s2 := if pitch.Some? then Push(s1, "ATT_PITCH", timestamp, pitch.value) else s1;
      if yaw.Some? then Push(s2, "ATT_YAW", timestamp, yaw.value) else s2
    else if m.kind == "RCOU" then
      var thr := Attr(m, "C3");
      if thr.Some? then Push(series, "THR", timestamp, thr.value) else series
    else series
  }

  /** The dictionary collect_series starts from: every series empty, under its display name. */
  function InitialSeries(): map<string, TimeSeries> {
    map[
      "ALT" := TimeSeries("ALT", [], []),
      "GPS_SPEED" := TimeSeries("GPS Speed", [], []),
      "ATT_ROLL" := TimeSeries("ATT Roll", [], []),
      "ATT_PITCH" := TimeSeries("ATT Pitch", [], []),
      "ATT_YAW" := TimeSeries("ATT Yaw", [], []),
      "THR" := TimeSeries("Throttle", [], [])
    ]
  }

  ghost predicate HasSourceKeys(series: map<string, TimeSeries>) {
    forall j :: 0 <= j < |SeriesSources| ==> SeriesSources[j].key in series
  }

  lemma InitialHasSourceKeys()
    ensures HasSourceKeys(InitialSeries())
  {
    assert SeriesSources[0].key == "ALT" && SeriesSources[1].key == "GPS_SPEED";
    assert SeriesSources[2].key == "ATT_ROLL" && SeriesSources[3].key == "ATT_PITCH";
    assert SeriesSources[4].key == "ATT_YAW" && SeriesSources[5].key == "THR";
  }

  /** Whether collect_series hands the message to _append_series: the running
      total (1-based) is even. */
  predicate Decimated(e: Entry) {
    (e.index + 1) % 2 == 0
  }

  /** Hands every entry that survives decimation to _append_series, in order. */
  function Fold(series: map<string, TimeSeries>, entries: seq<Entry>): (r: map<string, TimeSeries>)
    requires HasSourceKeys(series)
    ensures r.Keys == series.Keys
  {
    if entries == [] then series
    else
      var last := entries[|entries| - 1];
      var before := Fold(series, entries[..|entries| - 1]);
      if Decimated(last) then AppendSeries(before, last.timestamp, last.msg) else before
  }

  /** How many messages collect_series reads: it stops once the total reaches
      maxPoints, which is after the first message when maxPoints < 1. */
  /** One more entry read: it goes to _append_series when it survives decimation. */
  lemma FoldStep(log: seq<Message>, i: nat)
    requires i < |log|
    ensures HasSourceKeys(InitialSeries())
    ensures Fold(InitialSeries(), Entries(log)[..i + 1]) ==
              var before := Fold(InitialSeries(), Entries(log)[..i]);
              if (i + 1) % 2 == 0 then AppendSeries(before, TimeAt(log, i), log[i]) else before
  {
    InitialHasSourceKeys();
    assert Entries(log)[..i + 1][..i] == Entries(log)[..i];
    assert Entries(log)[..i + 1][i] == Entry(i, TimeAt(log, i), log[i]);
  }

  function Consumed(n: nat, maxPoints: int): nat {
    if n == 0 then 0 else if maxPoints < 1 then 1 else if n <= maxPoints then n else maxPoints
  }

  function Collected(log: seq<Message>, maxPoints: int): map<string, TimeSeries> {
    InitialHasSourceKeys();
    Fold(InitialSeries(), Entries(log)[..Consumed(|log|, maxPoints)])
  }

  /** The timestamps a series keeps: those of the decimated entries its table entry gives a value. */
  function PickTimes(src: Source, entries: seq<Entry>): seq<real> {
    if entries == [] then []
    else
      var last := entries[|entries| - 1];
      PickTimes(src, entries[..|entries| - 1]) +
        (if Decimated(last) && SampleFor(src, last.msg).Some? then [last.timestamp] else [])
  }

  /** The values a series keeps, from the same entries as PickTimes. */
  function PickValues(src: Source, entries: seq<Entry>): seq<real> {
    if entries == [] then []
    else
      var last := entries[|entries| - 1];
      var sample := SampleFor(src, last.msg);
      PickValues(src, entries[..|entries| - 1]) +
        (if Decimated(last) && sample.Some? then [sample.value] else [])
  }

  lemma {:induction false} PicksAlign(src: Source, entries: seq<Entry>)
    ensures |PickTimes(src, entries)| == |PickValues(src, entries)|
  {
    if entries != [] {
      PicksAlign(src, entries[..|entries| - 1]);
    }
  }

  /** Each series of the fold is its starting series followed by exactly the
      points its own table entry picks from the decimated messages: the series
      are independent of one another. */
  lemma {:induction false} FoldPerSeries(series: map<string, TimeSeries>, entries: seq<Entry>, j: nat)
    requires HasSourceKeys(series) && j < |SeriesSources|
    ensures var key := SeriesSources[j].key;
            Fold(series, entries)[key] ==
              TimeSeries(series[key].name, series[key].times + PickTimes(SeriesSources[j], entries),
                         series[key].values + PickValues(SeriesSources[j], entries))
  {
    if entries != [] {
      var init := entries[..|entries| - 1];
      FoldPerSeries(series, init, j);
      assert Fold(series, init).Keys == series.Keys;
    }
  }

  /** collect_series: each series holds, in order, the timestamp and value of
      every even-numbered (1-based) message among the first Consumed(n,
      maxPoints) to which its table entry gives a value, under its display
      name; its times and values have the same length. */
  lemma CollectedSeries(log: seq<Message>, maxPoints: int, j: nat)
    requires j < |SeriesSources|
    ensures var key := SeriesSources[j].key;
            var entries := Entries(log)[..Consumed(|log|, maxPoints)];
            key in Collected(log, maxPoints) &&
            Collected(log, maxPoints)[key] ==
              TimeSeries(InitialSeries()[key].name, PickTimes(SeriesSources[j], entries), PickValues(SeriesSources[j], entries)) &&
            |Collected(log, maxPoints)[key].times| == |Collected(log, maxPoints)[key].values|
  {
    InitialHasSourceKeys();
    var entries := Entries(log)[..Consumed(|log|, maxPoints)];
    FoldPerSeries(InitialSeries(), entries, j);
    PicksAlign(SeriesSources[j], entries);
  }

  // ---------------------------------------------------------------------------
  // DataFlashParser

  /** DataFlashParser: opens its reader on first use and keeps it, so every pass
      of iter_messages (and every method built on it) continues where the
      previous pass left the reader. unread is what the reader has yet to return. */
  class DataFlashParser {
    var unread: seq<Message>

    constructor (log: seq<Message>)
      ensures unread == log
    {
      unread := log;
    }

    /** One step of iter_messages: the next message, numbered index, or None once
        the reader is exhausted. */
    method Next(index: nat) returns (entry: Option<Entry>)
      modifies this
      ensures old(unread) == [] ==> entry.None? && unread == []
      ensures old(unread) != [] ==>
                entry == Some(Entry(index, ExtractTimestamp(old(unread)[0], index), old(unread)[0])) &&
                unread == old(unread)[1..]
    {
      if unread == [] {
        return None;
      }
      var msg := unread[0];
      unread := unread[1..];
      return Some(Entry(index, ExtractTimestamp(msg, index), msg));
    }

    /** iter_messages run to the end: the remaining messages numbered 0, 1, 2, ... */
    method IterMessages() returns (entries: seq<Entry>)
      modifies this
      ensures entries == Entries(old(unread))
      ensures unread == []
    {
      ghost var log := unread;
      entries := [];
      var msgIndex := 0;
      while true
        invariant msgIndex <= |log| && unread == log[msgIndex..]
        invariant entries == Entries(log[..msgIndex])
        decreases |unread|
      {
        var next := Next(msgIndex);
        if next.None? {
          break;
        }
        assert Entries(log[..msgIndex + 1]) == Entries(log[..msgIndex]) + [next.value];
        entries := entries + [next.value];
        msgIndex := msgIndex + 1;
      }
      assert log[..msgIndex] == log;
    }

    /** build_index over the remaining messages. A zero stride fails on the first
        message, which the reader has then already returned. */
    method BuildIndex(stride: int) returns (r: Result<LogIndex, IndexError>)
      modifies this
      ensures r == IndexOf(old(unread), stride)
      ensures unread == if r.Err? then old(unread)[1..] else []
    {
      ghost var log := unread;
      var timestamps: seq<real> := [];
      var messageNumbers: seq<nat> := [];
      var msgIndex := 0;
      var timestamp := 0.0;
      while true
        invariant msgIndex <= |log| && unread == log[msgIndex..]
        invariant stride != 0 || msgIndex == 0
        invariant msgIndex > 0 ==> timestamp == TimeAt(log, msgIndex - 1)
        invariant stride != 0 ==> messageNumbers == MultiplesIn(0, msgIndex, stride)
        invariant stride != 0 ==> timestamps == TimesAt(log, messageNumbers)
        invariant stride == 0 ==> timestamps == [] && messageNumbers == []
        decreases |unread|
      {
        var next := Next(msgIndex);
        if next.None? {
          break;
        }
        if stride == 0 {
          return Err(StrideIsZero);
        }
        timestamp := next.value.timestamp;
        SampleStep(log, messageNumbers, msgIndex, stride);
        if msgIndex % stride == 0 {
          timestamps := timestamps + [timestamp];
          messageNumbers := messageNumbers + [msgIndex];
        }
        msgIndex := msgIndex + 1;
      }
      assert msgIndex == |log|;
      if timestamps != [] && timestamps[|timestamps| - 1] != timestamp {
        timestamps := timestamps + [timestamp];
        messageNumbers := messageNumbers + [msgIndex - 1];
      }
      IndexOfSampled(log, stride);
      return Ok(LogIndex(timestamps, messageNumbers));
    }

    /** summarize over the remaining messages; the file size is a parameter
        (it comes from stat()). */
    method Summarize(sizeBytes: nat) returns (info: LogInfo)
      modifies this
      ensures info.sizeBytes == sizeBytes && info.logType == "DataFlash"
      ensures info.messageCount == |old(unread)|
      ensures old(unread) == [] ==> info.startTime == 0.0 && info.endTime == 0.0
      ensures old(unread) != [] ==>
                info.startTime == TimeAt(old(unread), 0) && info.endTime == TimeAt(old(unread), |old(unread)| - 1)
      ensures unread == []
    {
      ghost var log := unread;
      var startTime := 0.0;
      var endTime := 0.0;
      var count := 0;
      var msgIndex := 0;
      while true
        invariant msgIndex <= |log| && unread == log[msgIndex..]
        invariant count == msgIndex
        invariant msgIndex == 0 ==> startTime == 0.0 && endTime == 0.0
        invariant msgIndex > 0 ==> startTime == TimeAt(log, 0) && endTime == TimeAt(log, msgIndex - 1)
        decreases |unread|
      {
        var next := Next(msgIndex);
        if next.None? {
          break;
        }
        if count == 0 {
          startTime := next.value.timestamp;
        }
        endTime := next.value.timestamp;
        count := next.value.index + 1;
        msgIndex := msgIndex + 1;
      }
      info := LogInfo(sizeBytes, count, startTime, endTime, "DataFlash");
    }

    /** collect_series over the remaining messages: every second message goes to
        _append_series, and the pass stops once maxPoints messages have been read. */
    method CollectSeries(maxPoints: int) returns (series: map<string, TimeSeries>)
      modifies this
      ensures series == Collected(old(unread), maxPoints)
      ensures unread == old(unread)[Consumed(|old(unread)|, maxPoints)..]
    {
      ghost var log := unread;
      InitialHasSourceKeys();
      series := InitialSeries();
      var total := 0;
      var msgIndex := 0;
      while true
        invariant msgIndex <= Consumed(|log|, maxPoints) && unread == log[msgIndex..]
        invariant total == msgIndex
        invariant msgIndex == 0 || msgIndex < maxPoints
        invariant series == Fold(InitialSeries(), Entries(log)[..msgIndex])
        decreases |unread|
      {
        var next := Next(msgIndex);
        if next.None? {
          assert msgIndex == Consumed(|log|, maxPoints);
          break;
        }
        total := total + 1;
        ghost var folded := Fold(InitialSeries(), Entries(log)[..msgIndex + 1]);
        assert folded == if total % 2 == 0 then AppendSeries(series, next.value.timestamp, next.value.msg) else series by {
          FoldStep(log, msgIndex);
        }
        if total % 2 == 0 {
          series := AppendSeries(series, next.value.timestamp, next.value.msg);
        }
        msgIndex := msgIndex + 1;
        if total >= maxPoints {
          assert msgIndex == Consumed(|log|, maxPoints);
          break;
        }
      }
      assert series == Collected(log, maxPoints);
    }
  }
}
