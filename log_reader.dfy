/** The streaming log reader of core/log_reader.py: timestamp lookup by presence,
    the stream of timed messages with their file offsets, and the summary pass
    with its stride index and chart samples. */
module LogReader {
  import opened Messages

  // ---------------------------------------------------------------------------
  // _message_time

  /** The attributes tried, in order, and their units per second. */
  const TimeFields: seq<Candidate> := [
    Candidate("time_us", 1000000.0),
    Candidate("time_ms", 1000.0),
    Candidate("TimeUS", 1000000.0),
    Candidate("_timestamp", 1.0)
  ]

  /** The outcome of _message_time: no candidate attribute, a time in seconds, or
      a candidate present with the value None, on which float() raises TypeError. */
  datatype TimeLookup = NoTime | TimeOf(seconds: real) | NotANumber(field: string)

  /** _message_time: the first candidate attribute that is present (hasattr),
      whatever its value, decides. */
  function MessageTime(m: Message): (r: TimeLookup)
    ensures r.NoTime? <==>
              !HasAttr(m, "time_us") && !HasAttr(m, "time_ms") && !HasAttr(m, "TimeUS") && !HasAttr(m, "_timestamp")
    ensures r.NotANumber? ==> HasAttr(m, r.field) && m.attrs[r.field].None?
  {
    var i := FirstPresent(m, TimeFields);
    assert TimeFields[0].field == "time_us" && TimeFields[1].field == "time_ms";
    assert TimeFields[2].field == "TimeUS" && TimeFields[3].field == "_timestamp";
    if i == |TimeFields| then NoTime
    else
      var c := TimeFields[i];
      match m.attrs[c.field]
      case Some(v) => TimeOf(v / c.divisor)
      case None => NotANumber(c.field)
  }

  /** The priority order spelled out field by field; presence alone decides, so
      an attribute set to None hides the ones after it. */
  lemma MessageTimeOrder(m: Message)
    ensures HasAttr(m, "time_us") ==>
              MessageTime(m) == if m.attrs["time_us"].Some? then TimeOf(m.attrs["time_us"].value / 1000000.0)
                                else NotANumber("time_us")
    ensures (!HasAttr(m, "time_us") && HasAttr(m, "time_ms")) ==>
              MessageTime(m) == if m.attrs["time_ms"].Some? then TimeOf(m.attrs["time_ms"].value / 1000.0)
                                else NotANumber("time_ms")
    ensures (!HasAttr(m, "time_us") && !HasAttr(m, "time_ms") && HasAttr(m, "TimeUS")) ==>
              MessageTime(m) == if m.attrs["TimeUS"].Some? then TimeOf(m.attrs["TimeUS"].value / 1000000.0)
                                else NotANumber("TimeUS")
    ensures (!HasAttr(m, "time_us") && !HasAttr(m, "time_ms") && !HasAttr(m, "TimeUS") && HasAttr(m, "_timestamp")) ==>
              MessageTime(m) == if m.attrs["_timestamp"].Some? then TimeOf(m.attrs["_timestamp"].value)
                                else NotANumber("_timestamp")
    ensures (!HasAttr(m, "time_us") && !HasAttr(m, "time_ms") && !HasAttr(m, "TimeUS") && !HasAttr(m, "_timestamp")) ==>
              MessageTime(m) == NoTime
  {
    assert TimeFields[0].field == "time_us" && TimeFields[1].field == "time_ms";
    assert TimeFields[2].field == "TimeUS" && TimeFields[3].field == "_timestamp";
  }

  // ---------------------------------------------------------------------------
  // iter_messages

  datatype ReaderError =
    | TimeNotANumber(field: string)     // float(None) on a time attribute
    | StrideIsZero                      // message_count % 0
    | AttributeNotANumber(field: string) // float(None) on a sampled attribute
    | MissingAttribute(field: string)   // message.Pitch or message.Yaw absent
    | NoValidTimestamps                 // the ValueError of build_index

  /** What iter_messages yields: the time, the message, and the file position
      before the read that returned it. */
  datatype Timed = Timed(timestamp: real, msg: Message, offset: nat)

  /** iter_messages over the first n reads: untimed messages are skipped, and a
      time attribute set to None raises. */
  function ScanTimes(t: Trace, n: nat): Result<seq<Timed>, ReaderError>
    requires n <= |t.decoded|
  {
    if n == 0 then Ok([])
    else
      match ScanTimes(t, n - 1)
      case Err(e) => Err(e)
      case Ok(before) =>
        match MessageTime(t.decoded[n - 1].msg)
        case NoTime => Ok(before)
        case TimeOf(v) => Ok(before + [Timed(v, t.decoded[n - 1].msg, TellBefore(t, n - 1))])
        case NotANumber(f) => Err(TimeNotANumber(f))
  }

  /** How many of the first n reads carry a time. */
  function CountTimed(t: Trace, n: nat): nat
    requires n <= |t.decoded|
  {
    if n == 0 then 0 else CountTimed(t, n - 1) + (if MessageTime(t.decoded[n - 1].msg).TimeOf? then 1 else 0)
  }

  /** iter_messages raises exactly when some message's time attribute is None. */
  lemma {:induction false} ScanTimesFails(t: Trace, n: nat)
    requires n <= |t.decoded|
    ensures ScanTimes(t, n).Ok? <==> forall i :: 0 <= i < n ==> !MessageTime(t.decoded[i].msg).NotANumber?
  {
    if n > 0 {
      ScanTimesFails(t, n - 1);
      if MessageTime(t.decoded[n - 1].msg).NotANumber? {
        assert !ScanTimes(t, n).Ok?;
      } else {
        assert ScanTimes(t, n).Ok? == ScanTimes(t, n - 1).Ok?;
      }
    }
  }

  /** Otherwise it yields one element per timed message. */
  lemma {:induction false} ScanTimesCount(t: Trace, n: nat)
    requires n <= |t.decoded| && ScanTimes(t, n).Ok?
    ensures |ScanTimes(t, n).value| == CountTimed(t, n)
  {
    if n > 0 {
      ScanTimesCount(t, n - 1);
    }
  }

  /** ... and each element carries the time _message_time gives its message:
      no untimed message is ever yielded. */
  lemma {:induction false} ScanTimesYields(t: Trace, n: nat)
    requires n <= |t.decoded| && ScanTimes(t, n).Ok?
    ensures forall j :: 0 <= j < |ScanTimes(t, n).value| ==>
              MessageTime(ScanTimes(t, n).value[j].msg) == TimeOf(ScanTimes(t, n).value[j].timestamp)
  {
    if n > 0 {
      ScanTimesYields(t, n - 1);
    }
  }

  /** Once a read has raised, iter_messages over any longer prefix raises the same. */
  lemma {:induction false} ScanTimesSticks(t: Trace, i: nat, n: nat)
    requires i <= n <= |t.decoded| && ScanTimes(t, i).Err?
    ensures ScanTimes(t, n) == ScanTimes(t, i)
    decreases n - i
  {
    if i < n {
      ScanTimesSticks(t, i + 1, n);
    }
  }

  /** iter_messages: reads until the decoder returns None, noting the position
      before each read and skipping messages without a time. */
  method IterMessages(t: Trace) returns (r: Result<seq<Timed>, ReaderError>)
    ensures r == ScanTimes(t, |t.decoded|)
  {
    var yielded: seq<Timed> := [];
    for i := 0 to |t.decoded|
      invariant ScanTimes(t, i) == Ok(yielded)
    {
      var offset := TellBefore(t, i);
      var message := t.decoded[i].msg;
      var timestamp := MessageTime(message);
      match timestamp
      case NotANumber(f) =>
        ScanTimesSticks(t, i + 1, |t.decoded|);
        return Err(TimeNotANumber(f));
      case NoTime =>
      case TimeOf(v) =>
        yielded := yielded + [Timed(v, message, offset)];
    }
    return Ok(yielded);
  }

  // ---------------------------------------------------------------------------
  // build_index

  datatype IndexPoint = IndexPoint(timestamp: real, fileOffset: nat)

  datatype LogSummary = LogSummary(
    messageCount: nat,
    startTime: real,
    endTime: real,
    duration: real,
    index: seq<IndexPoint>,
    sampleChannels: map<string, seq<(real, real)>>)

  /** The six sample channels. */
  const Channels: set<string> := {"ALT", "GPS_SPEED", "THR", "ROLL", "PITCH", "YAW"}

  /** float(message.<field>) on an attribute known to be present. */
  function Number(m: Message, field: string): Result<real, ReaderError>
    requires HasAttr(m, field)
  {
    match m.attrs[field]
    case Some(v) => Ok(v)
    case None => Err(AttributeNotANumber(field))
  }

  /** message.<field> then float(): absent raises AttributeError, None raises TypeError. */
  function Required(m: Message, field: string): Result<real, ReaderError> {
    if HasAttr(m, field) then Number(m, field) else Err(MissingAttribute(field))
  }

  /** The (channel, value) points a timed message adds to the samples, or the
      exception converting them raises. An ATT message with Roll feeds roll,
      pitch and yaw together. */
  function SampleOf(m: Message): Result<seq<(string, real)>, ReaderError> {
    if m.kind == "BARO" && HasAttr(m, "Alt") then
      match Number(m, "Alt") case Ok(v) => Ok([("ALT", v)]) case Err(e) => Err(e)
    else if m.kind == "GPS" && HasAttr(m, "Spd") then
      match Number(m, "Spd") case Ok(v) => Ok([("GPS_SPEED", v)]) case Err(e) => Err(e)
    else if (m.kind == "RCOU" || m.kind == "RCIN") && HasAttr(m, "C3") then
      match Number(m, "C3") case Ok(v) => Ok([("THR", v)]) case Err(e) => Err(e)
    else if m.kind == "ATT" && HasAttr(m, "Roll") then
      match Number(m, "Roll")
      case Err(e) => Err(e)
      case Ok(roll) =>
        match Required(m, "Pitch")
        case Err(e) => Err(e)
        case Ok(pitch) =>
          match Required(m, "Yaw")
          case Err(e) => Err(e)
          case Ok(yaw) => Ok([("ROLL", roll), ("PITCH", pitch), ("YAW", yaw)])
    else Ok([])
  }

  /** The exception build_index raises while handling message m, if any: a time
      attribute set to None, then the stride, then the sample conversions. */
  function Fault(m: Message, stride: int): Option<ReaderError> {
    match MessageTime(m)
    case NotANumber(f) => Some(TimeNotANumber(f))
    case NoTime => None
    case TimeOf(_) =>
      if stride == 0 then Some(StrideIsZero)
      else match SampleOf(m) case Err(e) => Some(e) case Ok(_) => None
  }

  /** The first exception among the first n reads, in read order. */
  function FirstFault(t: Trace, stride: int, n: nat): Option<ReaderError>
    requires n <= |t.decoded|
  {
    if n == 0 then None
    else if FirstFault(t, stride, n - 1).Some? then FirstFault(t, stride, n - 1)
    else Fault(t.decoded[n - 1].msg, stride)
  }

  /** The index points: the timed message at every 1-based count that is a
      multiple of stride. */
  function IndexPoints(timed: seq<Timed>, stride: int): seq<IndexPoint> {
    if stride == 0 || timed == [] then []
    else
      var last := timed[|timed| - 1];
      IndexPoints(timed[..|timed| - 1], stride) +
        (if |timed| % stride == 0 then [IndexPoint(last.timestamp, last.offset)] else [])
  }

  /** One index point per multiple of the stride among the counts 1..n. */
  lemma {:induction false} IndexPointsLength(timed: seq<Timed>, stride: int)
    requires stride != 0
    ensures |IndexPoints(timed, stride)| == |MultiplesIn(1, |timed| + 1, stride)|
  {
    if timed != [] {
      IndexPointsLength(timed[..|timed| - 1], stride);
    }
  }

  /** The values of the points that go to one channel. */
  function PointsFor(points: seq<(string, real)>, name: string): seq<real> {
    if points == [] then []
    else PointsFor(points[..|points| - 1], name) +
         (if points[|points| - 1].0 == name then [points[|points| - 1].1] else [])
  }

  /** The samples a channel collects over the timed messages, in order. */
  function ChannelSamples(timed: seq<Timed>, name: string): seq<(real, real)> {
    if timed == [] then []
    else
      var last := timed[|timed| - 1];
      var added := match SampleOf(last.msg) case Ok(points) => PointsFor(points, name) case Err(_) => [];
      ChannelSamples(timed[..|timed| - 1], name) + seq(|added|, k requires 0 <= k < |added| => (last.timestamp, added[k]))
  }

  function Samples(timed: seq<Timed>): map<string, seq<(real, real)>> {
    map name | name in Channels :: ChannelSamples(timed, name)
  }

  /** build_index: the first exception in read order, else the ValueError when
      no message is timed, else the count, the first and last time, their
      difference, the stride index and the samples of the timed messages. */
  function SummaryOf(t: Trace, stride: int): Result<LogSummary, ReaderError> {
    var fault := FirstFault(t, stride, |t.decoded|);
    if fault.Some? then Err(fault.value)
    else
      match ScanTimes(t, |t.decoded|)
      case Err(e) => Err(e)
      case Ok(timed) =>
        if timed == [] then Err(NoValidTimestamps)
        else
          var first := timed[0].timestamp;
          var last := timed[|timed| - 1].timestamp;
          Ok(LogSummary(|timed|, first, last, last - first, IndexPoints(timed, stride), Samples(timed)))
  }

  // ---------------------------------------------------------------------------
  // The incremental view that build_index's loop maintains

  /** The samples dictionary after the points of one message are appended in order. */
  function Add(samples: map<string, seq<(real, real)>>, timestamp: real, points: seq<(string, real)>):
    (r: map<string, seq<(real, real)>>)
    ensures r.Keys == samples.Keys + set k | 0 <= k < |points| :: points[k].0
  {
    if points == [] then samples
    else
      var before := Add(samples, timestamp, points[..|points| - 1]);
      var (name, v) := points[|points| - 1];
      assert points == points[..|points| - 1] + [(name, v)];
      before[name := (if name in before then before[name] else []) + [(timestamp, v)]]
  }

  function Stamped(timestamp: real, values: seq<real>): (r: seq<(real, real)>)
    ensures |r| == |values|
    ensures forall k :: 0 <= k < |r| ==> r[k] == (timestamp, values[k])
  {
    seq(|values|, k requires 0 <= k < |values| => (timestamp, values[k]))
  }

  lemma StampedSnoc(timestamp: real, values: seq<real>, v: real)
    ensures Stamped(timestamp, values + [v]) == Stamped(timestamp, values) + [(timestamp, v)]
  {
  }

  lemma {:induction false} AddPerName(samples: map<string, seq<(real, real)>>, timestamp: real,
                                      points: seq<(string, real)>, name: string)
    requires name in samples
    ensures Add(samples, timestamp, points)[name] == samples[name] + Stamped(timestamp, PointsFor(points, name))
  {
    if points != [] {
      var init := points[..|points| - 1];
      AddPerName(samples, timestamp, init, name);
      var last := points[|points| - 1];
      if last.0 == name {
        StampedSnoc(timestamp, PointsFor(init, name), last.1);
      } else {
        assert PointsFor(points, name) == PointsFor(init, name);
      }
    }
  }

  /** Every point SampleOf produces belongs to one of the six channels. */
  lemma SampleOfNames(m: Message)
    ensures SampleOf(m).Ok? ==> forall k :: 0 <= k < |SampleOf(m).value| ==> SampleOf(m).value[k].0 in Channels
  {
  }

  lemma SamplesSnoc(timed: seq<Timed>, x: Timed)
    requires SampleOf(x.msg).Ok?
    ensures Samples(timed + [x]) == Add(Samples(timed), x.timestamp, SampleOf(x.msg).value)
  {
    var points := SampleOf(x.msg).value;
    SampleOfNames(x.msg);
    var lhs := Samples(timed + [x]);
    var rhs := Add(Samples(timed), x.timestamp, points);
    assert lhs.Keys == Channels;
    assert rhs.Keys == Channels;
    forall name | name in Channels ensures lhs[name] == rhs[name] {
      AddPerName(Samples(timed), x.timestamp, points, name);
      assert (timed + [x])[..|timed|] == timed;
    }
  }

  lemma IndexPointsSnoc(timed: seq<Timed>, x: Timed, stride: int)
    requires stride != 0
    ensures IndexPoints(timed + [x], stride) ==
              IndexPoints(timed, stride) + (if (|timed| + 1) % stride == 0 then [IndexPoint(x.timestamp, x.offset)] else [])
  {
    assert (timed + [x])[..|timed|] == timed;
  }

  /** Once a read has raised, every longer prefix reports that same exception. */
  lemma {:induction false} FirstFaultSticks(t: Trace, stride: int, i: nat, n: nat)
    requires i <= n <= |t.decoded| && FirstFault(t, stride, i).Some?
    ensures FirstFault(t, stride, n) == FirstFault(t, stride, i)
    decreases n - i
  {
    if i < n {
      FirstFaultSticks(t, stride, i + 1, n);
    }
  }

  /** A message without a time, or whose time, stride and samples are all fine, raises nothing. */
  lemma NoFaultStep(t: Trace, stride: int, i: nat)
    requires i < |t.decoded| && FirstFault(t, stride, i).None?
    requires MessageTime(t.decoded[i].msg).NoTime? ||
             (MessageTime(t.decoded[i].msg).TimeOf? && stride != 0 && SampleOf(t.decoded[i].msg).Ok?)
    ensures FirstFault(t, stride, i + 1).None?
  {
  }

  /** The samples dictionary build_index starts from. */
  function EmptySamples(): map<string, seq<(real, real)>> {
    map["ALT" := [], "GPS_SPEED" := [], "THR" := [], "ROLL" := [], "PITCH" := [], "YAW" := []]
  }

  lemma EmptySamplesAreSamples()
    ensures Samples([]) == EmptySamples()
  {
    assert Samples([]).Keys == Channels;
  }

  /** The local variables build_index updates: the count of timed messages, the
      first and last time, the index and the samples dictionary. */
  datatype Tally = Tally(messageCount: nat, startTime: Option<real>, endTime: Option<real>,
                         index: seq<IndexPoint>, samples: map<string, seq<(real, real)>>)

  /** What build_index has gathered from the timed messages seen so far. */
  ghost predicate Gathered(timed: seq<Timed>, stride: int, acc: Tally)
  {
    Counted(timed, stride, acc) && acc.samples == Samples(timed)
  }

  /** The count, the first and last time and the index points of the timed messages. */
  ghost predicate Counted(timed: seq<Timed>, stride: int, acc: Tally)
  {
    acc.messageCount == |timed| &&
    (timed == [] ==> acc.startTime.None? && acc.endTime.None?) &&
    (timed != [] ==> acc.startTime == Some(timed[0].timestamp) && acc.endTime == Some(timed[|timed| - 1].timestamp)) &&
    (timed != [] ==> stride != 0) &&
    acc.index == IndexPoints(timed, stride)
  }

  /** build_index: one pass over the decoder (iter_messages inlined), counting the
      timed messages, keeping the first and last time, adding an index point at
      every multiple of the stride and appending the channel samples. */
  method BuildIndex(t: Trace, sampleStride: int) returns (r: Result<LogSummary, ReaderError>)
    ensures r == SummaryOf(t, sampleStride)
  {
    EmptySamplesAreSamples();
    var acc := Tally(0, None, None, [], EmptySamples());
    ghost var timed: seq<Timed> := [];
    for i := 0 to |t.decoded|
      invariant FirstFault(t, sampleStride, i).None?
      invariant ScanTimes(t, i) == Ok(timed)
      invariant Gathered(timed, sampleStride, acc)
    {
      var fault;
      fault, acc, timed := ReadOne(t, sampleStride, i, acc, timed);
      if fault.Some? {
        return Err(fault.value);
      }
    }
    r := Finish(t, sampleStride, acc, timed);
  }

  /** The end of build_index: the ValueError when no message was timed, else the summary. */
  method Finish(t: Trace, sampleStride: int, acc: Tally, ghost timed: seq<Timed>) returns (r: Result<LogSummary, ReaderError>)
    requires FirstFault(t, sampleStride, |t.decoded|).None? && ScanTimes(t, |t.decoded|) == Ok(timed)
    requires Gathered(timed, sampleStride, acc)
    ensures r == SummaryOf(t, sampleStride)
  {
    CleanScan(t, sampleStride, timed);
    if acc.startTime.None? || acc.endTime.None? {
      return Err(NoValidTimestamps);
    }
    return Ok(LogSummary(acc.messageCount, acc.startTime.value, acc.endTime.value,
                         acc.endTime.value - acc.startTime.value, acc.index, acc.samples));
  }

  /** One read of build_index's loop: a time attribute set to None raises, an
      untimed message is skipped, and a timed one is gathered. A read that
      raises decides the outcome of the whole pass. */
  method ReadOne(t: Trace, sampleStride: int, i: nat, acc0: Tally, ghost timed0: seq<Timed>)
    returns (fault: Option<ReaderError>, acc: Tally, ghost timed: seq<Timed>)
    requires i < |t.decoded| && FirstFault(t, sampleStride, i).None? && ScanTimes(t, i) == Ok(timed0)
    requires Gathered(timed0, sampleStride, acc0)
    ensures fault.Some? ==> SummaryOf(t, sampleStride) == Err(fault.value)
    ensures fault.None? ==>
              FirstFault(t, sampleStride, i + 1).None? && ScanTimes(t, i + 1) == Ok(timed) &&
              Gathered(timed, sampleStride, acc)
  {
    acc, timed := acc0, timed0;
    var offset := TellBefore(t, i);
    var message := t.decoded[i].msg;
    var lookup := MessageTime(message);
    if lookup.NotANumber? {
      assert SummaryOf(t, sampleStride) == Err(TimeNotANumber(lookup.field)) by {
        FaultDecides(t, sampleStride, i + 1);
      }
      return Some(TimeNotANumber(lookup.field)), acc, timed;
    }
    if lookup.NoTime? {
      assert FirstFault(t, sampleStride, i + 1).None? && ScanTimes(t, i + 1) == Ok(timed0) by {
        ScanStep(t, i, timed0);
        NoFaultStep(t, sampleStride, i);
      }
      return None, acc, timed;
    }
    fault, acc, timed := ReadTimed(t, sampleStride, i, lookup.seconds, acc0, timed0);
  }

  /** ReadOne for a message with a time: it is gathered, unless the stride or a
      sample conversion raises. */
  method ReadTimed(t: Trace, sampleStride: int, i: nat, seconds: real, acc0: Tally, ghost timed0: seq<Timed>)
    returns (fault: Option<ReaderError>, acc: Tally, ghost timed: seq<Timed>)
    requires i < |t.decoded| && FirstFault(t, sampleStride, i).None? && ScanTimes(t, i) == Ok(timed0)
    requires MessageTime(t.decoded[i].msg) == TimeOf(seconds)
    requires Gathered(timed0, sampleStride, acc0)
    ensures fault.Some? ==> SummaryOf(t, sampleStride) == Err(fault.value)
    ensures fault.None? ==>
              FirstFault(t, sampleStride, i + 1).None? && ScanTimes(t, i + 1) == Ok(timed) &&
              Gathered(timed, sampleStride, acc)
  {
    var message := t.decoded[i].msg;
    var offset := TellBefore(t, i);
    timed := timed0;
    fault, acc := AddTimed(seconds, message, offset, sampleStride, acc0, timed0);
    if fault.Some? {
      assert SummaryOf(t, sampleStride) == Err(fault.value) by {
        FaultDecides(t, sampleStride, i + 1);
      }
      return;
    }
    timed := timed0 + [Timed(seconds, message, offset)];
    assert FirstFault(t, sampleStride, i + 1).None? && ScanTimes(t, i + 1) == Ok(timed) by {
      ScanStep(t, i, timed0);
      NoFaultStep(t, sampleStride, i);
    }
  }

  /** The body of build_index's loop for one timed message: count it, update the
      first and last time, add an index point when the count is a multiple of
      the stride, then append its samples. The stride and the sample
      conversions can raise. */
  method AddTimed(timestamp: real, message: Message, offset: nat, sampleStride: int, acc0: Tally, ghost timed: seq<Timed>)
    returns (fault: Option<ReaderError>, acc: Tally)
    requires MessageTime(message) == TimeOf(timestamp)
    requires Gathered(timed, sampleStride, acc0)
    ensures fault == Fault(message, sampleStride)
    ensures fault.None? ==> Gathered(timed + [Timed(timestamp, message, offset)], sampleStride, acc)
  {
    ghost var x := Timed(timestamp, message, offset);
    if sampleStride == 0 {
      // message_count % sample_stride raises before the index or the samples change.
      return Some(StrideIsZero), acc0;
    }
    acc := TallyTimed(timestamp, offset, sampleStride, acc0, timed, message);
    var points := SampleOf(message);
    if points.Err? {
      return Some(points.error), acc;
    }
    var samples := AppendSamples(acc0.samples, timestamp, message);
    assert samples == Samples(timed + [x]) by {
      SamplesSnoc(timed, x);
    }
    acc := acc.(samples := samples);
    fault := None;
  }

  /** Counting one timed message: the count grows, the first time is kept or
      set, the last time is this one, and an index point is added when the new
      count is a multiple of the stride. */
  method TallyTimed(timestamp: real, offset: nat, sampleStride: int, acc0: Tally, ghost timed: seq<Timed>,
                    ghost message: Message)
    returns (acc: Tally)
    requires sampleStride != 0 && Counted(timed, sampleStride, acc0)
    ensures Counted(timed + [Timed(timestamp, message, offset)], sampleStride, acc)
    ensures acc.samples == acc0.samples
  {
    var messageCount := acc0.messageCount + 1;
    var startTime := acc0.startTime;
    if startTime.None? {
      startTime := Some(timestamp);
    }
    var endTime := Some(timestamp);
    var index := acc0.index;
    IndexPointsSnoc(timed, Timed(timestamp, message, offset), sampleStride);
    if messageCount % sampleStride == 0 {
      index := index + [IndexPoint(timestamp, offset)];
    }
    acc := Tally(messageCount, startTime, endTime, index, acc0.samples);
  }

  lemma ScanStep(t: Trace, i: nat, timed: seq<Timed>)
    requires i < |t.decoded| && ScanTimes(t, i) == Ok(timed)
    ensures MessageTime(t.decoded[i].msg).NoTime? ==> ScanTimes(t, i + 1) == Ok(timed)
    ensures MessageTime(t.decoded[i].msg).TimeOf? ==>
              ScanTimes(t, i + 1) == Ok(timed + [Timed(MessageTime(t.decoded[i].msg).seconds, t.decoded[i].msg, TellBefore(t, i))])
  {
  }

  /** A read that raises decides the outcome of build_index. */
  lemma FaultDecides(t: Trace, stride: int, i: nat)
    requires i <= |t.decoded| && FirstFault(t, stride, i).Some?
    ensures SummaryOf(t, stride) == Err(FirstFault(t, stride, i).value)
  {
    FirstFaultSticks(t, stride, i, |t.decoded|);
  }

  /** A pass in which nothing raised ends with the ValueError or the summary of what it saw. */
  lemma CleanScan(t: Trace, stride: int, timed: seq<Timed>)
    requires FirstFault(t, stride, |t.decoded|).None? && ScanTimes(t, |t.decoded|) == Ok(timed)
    ensures SummaryOf(t, stride) ==
              if timed == [] then Err(NoValidTimestamps)
              else Ok(LogSummary(|timed|, timed[0].timestamp, timed[|timed| - 1].timestamp,
                                 timed[|timed| - 1].timestamp - timed[0].timestamp,
                                 IndexPoints(timed, stride), Samples(timed)))
  {
  }

  lemma AddSingle(samples: map<string, seq<(real, real)>>, timestamp: real)
    ensures forall name, v :: Add(samples, timestamp, [(name, v)]) ==
              samples[name := (if name in samples then samples[name] else []) + [(timestamp, v)]]
  {
    forall name, v ensures Add(samples, timestamp, [(name, v)]) ==
                             samples[name := (if name in samples then samples[name] else []) + [(timestamp, v)]] {
      assert [(name, v)][..0] == [];
    }
  }

  /** The type dispatch of build_index on a message whose conversions succeed. */
  method AppendSamples(samples: map<string, seq<(real, real)>>, timestamp: real, message: Message)
    returns (updated: map<string, seq<(real, real)>>)
    requires SampleOf(message).Ok? && Channels <= samples.Keys
    ensures updated == Add(samples, timestamp, SampleOf(message).value)
  {
    var msgType := message.kind;
    if msgType == "BARO" && HasAttr(message, "Alt") {
      updated := samples["ALT" := samples["ALT"] + [(timestamp, Number(message, "Alt").value)]];
      assert updated == Add(samples, timestamp, SampleOf(message).value) by { AddSingle(samples, timestamp); }
    } else if msgType == "GPS" && HasAttr(message, "Spd") {
      updated := samples["GPS_SPEED" := samples["GPS_SPEED"] + [(timestamp, Number(message, "Spd").value)]];
      assert updated == Add(samples, timestamp, SampleOf(message).value) by { AddSingle(samples, timestamp); }
    } else if (msgType == "RCOU" || msgType == "RCIN") && HasAttr(message, "C3") {
      updated := samples["THR" := samples["THR"] + [(timestamp, Number(message, "C3").value)]];
      assert updated == Add(samples, timestamp, SampleOf(message).value) by { AddSingle(samples, timestamp); }
    } else if msgType == "ATT" && HasAttr(message, "Roll") {
      var roll := Number(message, "Roll").value;
      var pitch := Required(message, "Pitch").value;
      var yaw := Required(message, "Yaw").value;
      updated := samples["ROLL" := samples["ROLL"] + [(timestamp, roll)]];
      updated := updated["PITCH" := updated["PITCH"] + [(timestamp, pitch)]];
      updated := updated["YAW" := updated["YAW"] + [(timestamp, yaw)]];
      assert updated == Add(samples, timestamp, SampleOf(message).value) by {
        assert SampleOf(message).value == [("ROLL", roll), ("PITCH", pitch), ("YAW", yaw)];
        AddAttitude(samples, timestamp, roll, pitch, yaw);
      }
    } else {
      updated := samples;
    }
  }

  /** The three appends of an ATT message, one channel after the other. */
  lemma AddAttitude(samples: map<string, seq<(real, real)>>, timestamp: real, roll: real, pitch: real, yaw: real)
    requires Channels <= samples.Keys
    ensures Add(samples, timestamp, [("ROLL", roll), ("PITCH", pitch), ("YAW", yaw)]) ==
              samples["ROLL" := samples["ROLL"] + [(timestamp, roll)]]
                     ["PITCH" := samples["PITCH"] + [(timestamp, pitch)]]
                     ["YAW" := samples["YAW"] + [(timestamp, yaw)]]
  {
    var points := [("ROLL", roll), ("PITCH", pitch), ("YAW", yaw)];
    assert points[..2] == [("ROLL", roll), ("PITCH", pitch)];
    assert points[..2][..1] == [("ROLL", roll)];
    AddSingle(samples, timestamp);
  }

  // ---------------------------------------------------------------------------
  // What build_index promises

  /** A pass in which nothing raised also got through iter_messages. */
  lemma {:induction false} NoFaultScans(t: Trace, stride: int, n: nat)
    requires n <= |t.decoded| && FirstFault(t, stride, n).None?
    ensures ScanTimes(t, n).Ok?
  {
    if n > 0 {
      NoFaultScans(t, stride, n - 1);
    }
  }

  /** build_index succeeds exactly when no read raises and at least one message
      is timed; it raises the ValueError exactly when nothing else raised and no
      message is timed. */
  lemma SummaryOutcome(t: Trace, stride: int)
    ensures SummaryOf(t, stride).Ok? <==>
              FirstFault(t, stride, |t.decoded|).None? && CountTimed(t, |t.decoded|) > 0
    ensures SummaryOf(t, stride) == Err(NoValidTimestamps) <==>
              FirstFault(t, stride, |t.decoded|).None? && CountTimed(t, |t.decoded|) == 0
  {
    if FirstFault(t, stride, |t.decoded|).None? {
      NoFaultScans(t, stride, |t.decoded|);
      ScanTimesCount(t, |t.decoded|);
    } else {
      FaultNotValueError(t, stride, |t.decoded|);
    }
  }

  /** No read raises the ValueError: it is only raised after the loop. */
  lemma {:induction false} FaultNotValueError(t: Trace, stride: int, n: nat)
    requires n <= |t.decoded|
    ensures FirstFault(t, stride, n) != Some(NoValidTimestamps)
  {
    if n > 0 {
      FaultNotValueError(t, stride, n - 1);
    }
  }

  /** The summary counts the timed messages, its duration is end minus start,
      every channel is present, and both ends are times of timed messages. */
  lemma SummaryFields(t: Trace, stride: int)
    requires SummaryOf(t, stride).Ok?
    ensures SummaryOf(t, stride).value.messageCount == CountTimed(t, |t.decoded|)
    ensures SummaryOf(t, stride).value.duration ==
              SummaryOf(t, stride).value.endTime - SummaryOf(t, stride).value.startTime
    ensures SummaryOf(t, stride).value.sampleChannels.Keys == Channels
  {
    SummaryOfScan(t, stride);
    ScanTimesCount(t, |t.decoded|);
  }

  /** Both ends of the summary are times that some decoded message carries. */
  lemma SummaryEnds(t: Trace, stride: int)
    requires SummaryOf(t, stride).Ok?
    ensures exists i :: 0 <= i < |t.decoded| && MessageTime(t.decoded[i].msg) == TimeOf(SummaryOf(t, stride).value.startTime)
    ensures exists i :: 0 <= i < |t.decoded| && MessageTime(t.decoded[i].msg) == TimeOf(SummaryOf(t, stride).value.endTime)
  {
    var n := |t.decoded|;
    SummaryOfScan(t, stride);
    var timed := ScanTimes(t, n).value;
    ScanTimesYieldsAt(t, n, 0);
    ScanTimesYieldsAt(t, n, |timed| - 1);
    var a := ScanTimesOrigin(t, n, 0);
    var b := ScanTimesOrigin(t, n, |timed| - 1);
    assert MessageTime(t.decoded[a].msg) == TimeOf(SummaryOf(t, stride).value.startTime);
    assert MessageTime(t.decoded[b].msg) == TimeOf(SummaryOf(t, stride).value.endTime);
  }

  /** The read that returned the j-th message iter_messages yields. */
  lemma {:induction false} ScanTimesOrigin(t: Trace, n: nat, j: nat) returns (i: nat)
    requires n <= |t.decoded| && ScanTimes(t, n).Ok? && j < |ScanTimes(t, n).value|
    ensures i < n && t.decoded[i].msg == ScanTimes(t, n).value[j].msg
  {
    var before := ScanTimes(t, n - 1).value;
    if j < |before| {
      assert ScanTimes(t, n).value[j] == before[j];
      i := ScanTimesOrigin(t, n - 1, j);
    } else {
      i := n - 1;
    }
  }

  lemma ScanTimesYieldsAt(t: Trace, n: nat, j: nat)
    requires n <= |t.decoded| && ScanTimes(t, n).Ok? && j < |ScanTimes(t, n).value|
    ensures MessageTime(ScanTimes(t, n).value[j].msg) == TimeOf(ScanTimes(t, n).value[j].timestamp)
  {
    ScanTimesYields(t, n);
  }

  /** A successful build_index summarises what iter_messages yields. */
  lemma SummaryOfScan(t: Trace, stride: int)
    requires SummaryOf(t, stride).Ok?
    ensures ScanTimes(t, |t.decoded|).Ok? && ScanTimes(t, |t.decoded|).value != []
    ensures var timed := ScanTimes(t, |t.decoded|).value;
            var first := timed[0].timestamp;
            var last := timed[|timed| - 1].timestamp;
            SummaryOf(t, stride).value ==
              LogSummary(|timed|, first, last, last - first, IndexPoints(timed, stride), Samples(timed))
  {
  }

  /** With a zero stride the first timed message raises, so a pass that raised
      nothing saw no timed message. */
  lemma {:induction false} ZeroStrideUntimed(t: Trace, n: nat)
    requires n <= |t.decoded| && FirstFault(t, 0, n).None?
    ensures CountTimed(t, n) == 0
  {
    if n > 0 {
      ZeroStrideUntimed(t, n - 1);
    }
  }

  /** A summary has one index point for every |stride| timed messages, each at a
      timed message whose 1-based count is a multiple of the stride. */
  lemma SummaryIndex(t: Trace, stride: int)
    requires SummaryOf(t, stride).Ok?
    ensures stride != 0
    ensures |SummaryOf(t, stride).value.index| ==
              SummaryOf(t, stride).value.messageCount / (if stride < 0 then -stride else stride)
  {
    var n := |t.decoded|;
    SummaryOutcome(t, stride);
    if stride == 0 {
      ZeroStrideUntimed(t, n);
    }
    MultiplesCount(|ScanTimes(t, n).value|, stride);
    IndexPointsLength(ScanTimes(t, n).value, stride);
  }

  /** An ATT message contributes to roll, pitch and yaw together or not at all. */
  lemma AttitudePoints(m: Message)
    ensures SampleOf(m).Ok? ==>
              |PointsFor(SampleOf(m).value, "ROLL")| == |PointsFor(SampleOf(m).value, "PITCH")| ==
              |PointsFor(SampleOf(m).value, "YAW")|
  {
    if SampleOf(m).Ok? {
      var points := SampleOf(m).value;
      if |points| == 3 {
        assert points[..2] == [points[0], points[1]];
        assert points[..2][..1] == [points[0]];
        assert [points[0]][..0] == [];
        forall name ensures |PointsFor(points, name)| ==
                              (if points[0].0 == name then 1 else 0) + (if points[1].0 == name then 1 else 0) +
                              (if points[2].0 == name then 1 else 0) {
          assert PointsFor([points[0]], name) == if points[0].0 == name then [points[0].1] else [];
          assert PointsFor(points[..2], name) ==
                   PointsFor([points[0]], name) + (if points[1].0 == name then [points[1].1] else []);
        }
      }
    }
  }

  /** So the three attitude channels always hold the same number of samples. */
  lemma {:induction false} AttitudeAligned(timed: seq<Timed>)
    ensures |ChannelSamples(timed, "ROLL")| == |ChannelSamples(timed, "PITCH")| == |ChannelSamples(timed, "YAW")|
  {
    if timed != [] {
      AttitudeAligned(timed[..|timed| - 1]);
      AttitudePoints(timed[|timed| - 1].msg);
    }
  }
}
