/** The time index of the timeline view (core/indexer.py): the timestamp of
    every fifth DataFlash record, up to a maximum number of points. */
module Indexer {
  import opened Messages
  import DataFlash

  datatype TimeIndex = TimeIndex(times: seq<real>)

  /** The timestamps of the records at positions 0, 5, 10, ... */
  function EveryFifth(records: seq<DataFlash.LogRecord>): seq<real> {
    if records == [] then []
    else EveryFifth(records[..|records| - 1]) +
         (if (|records| - 1) % 5 == 0 then [records[|records| - 1].timestamp] else [])
  }

  /** The number of points at which the loop stops: it breaks once the list
      holds max_points times, and at least one time is always appended first. */
  function Cap(maxPoints: int): nat {
    if maxPoints < 1 then 1 else maxPoints
  }

  /** How many records the loop reads: up to and including the one that fills
      the list, or all of them when the list never fills. */
  function Visited(n: nat, cap: nat): nat
    requires cap >= 1
  {
    if n > 5 * (cap - 1) then 5 * (cap - 1) + 1 else n
  }

  /** build_time_index: the index holds the first min(ceil(n/5), cap) of the
      every-fifth timestamps, and progress is reported at every multiple of
      5000 among the positions read. */
  method BuildTimeIndex(t: Trace, maxPoints: int, reportProgress: bool) returns (index: TimeIndex, progress: seq<nat>)
    ensures index.times == EveryFifth(DataFlash.Records(t)[..Visited(|t.decoded|, Cap(maxPoints))])
    ensures progress == if reportProgress then MultiplesIn(0, Visited(|t.decoded|, Cap(maxPoints)), 5000) else []
  {
    var records := DataFlash.IterRecords(t);
    var times;
    times, progress := SampleTimes(records, maxPoints, reportProgress);
    index := TimeIndex(times);
  }

  /** The loop of build_time_index over the records the reader yields. */
  method SampleTimes(records: seq<DataFlash.LogRecord>, maxPoints: int, reportProgress: bool)
    returns (times: seq<real>, progress: seq<nat>)
    ensures times == EveryFifth(records[..Visited(|records|, Cap(maxPoints))])
    ensures progress == if reportProgress then MultiplesIn(0, Visited(|records|, Cap(maxPoints)), 5000) else []
  {
    var cap := Cap(maxPoints);
    times := [];
    progress := [];
    for idx := 0 to |records|
      invariant idx <= 5 * (cap - 1)
      invariant times == EveryFifth(records[..idx])
      invariant progress == if reportProgress then MultiplesIn(0, idx, 5000) else []
    {
      if reportProgress && idx % 5000 == 0 {
        progress := progress + [idx];
      }
      assert progress == if reportProgress then MultiplesIn(0, idx + 1, 5000) else [] by {
        MultiplesSnoc(0, idx, 5000);
      }
      if idx % 5 != 0 {
        assert times == EveryFifth(records[..idx + 1]) && idx + 1 <= 5 * (cap - 1) by {
          EveryFifthStep(records, idx);
          FifthStep(idx, cap);
        }
        continue;
      }
      times := times + [records[idx].timestamp];
      assert times == EveryFifth(records[..idx + 1]) by {
        EveryFifthStep(records, idx);
      }
      if |times| >= maxPoints {
        assert Visited(|records|, cap) == idx + 1 by {
          EveryFifthLength(records[..idx + 1]);
          FifthStep(idx, cap);
        }
        return;
      }
      assert idx + 1 <= 5 * (cap - 1) by {
        EveryFifthLength(records[..idx + 1]);
        FifthStep(idx, cap);
      }
    }
    assert Visited(|records|, cap) == |records|;
    assert records[..|records|] == records;
  }

  /** The arithmetic of the cap: a time appended at position idx, a multiple of
      five, is the cap-th one exactly when idx is 5 * (cap - 1); any other
      position before that leaves room for the next. */
  lemma FifthStep(idx: nat, cap: nat)
    requires cap >= 1 && idx <= 5 * (cap - 1)
    ensures idx % 5 == 0 && (idx + 5) / 5 >= cap ==> idx == 5 * (cap - 1)
    ensures idx % 5 == 0 && (idx + 5) / 5 < cap ==> idx + 1 <= 5 * (cap - 1)
    ensures idx % 5 != 0 ==> idx + 1 <= 5 * (cap - 1)
  {
  }

  lemma EveryFifthStep(records: seq<DataFlash.LogRecord>, i: nat)
    requires i < |records|
    ensures EveryFifth(records[..i + 1]) ==
              EveryFifth(records[..i]) + (if i % 5 == 0 then [records[i].timestamp] else [])
  {
    assert records[..i + 1][..i] == records[..i];
  }

  /** One time for every record whose position is a multiple of five: ceil(n/5). */
  lemma {:induction false} EveryFifthLength(records: seq<DataFlash.LogRecord>)
    ensures |EveryFifth(records)| == (|records| + 4) / 5
  {
    if records != [] {
      EveryFifthLength(records[..|records| - 1]);
    }
  }

  /** The j-th time is the timestamp of the record at position 5j. */
  lemma {:induction false} EveryFifthAt(records: seq<DataFlash.LogRecord>)
    ensures forall j :: 0 <= j < |EveryFifth(records)| ==>
              5 * j < |records| && EveryFifth(records)[j] == records[5 * j].timestamp
  {
    if records != [] {
      var init := records[..|records| - 1];
      EveryFifthAt(init);
      EveryFifthLength(init);
      EveryFifthLength(records);
      forall j | 0 <= j < |EveryFifth(records)|
        ensures 5 * j < |records| && EveryFifth(records)[j] == records[5 * j].timestamp
      {
        if j < |EveryFifth(init)| {
          assert EveryFifth(records)[j] == EveryFifth(init)[j];
          assert init[5 * j] == records[5 * j];
        }
      }
    }
  }

  /** What the index holds, stated without the loop: as many points as the cap
      allows out of ceil(n/5), the j-th being the time of record 5j, so that
      the index never exceeds max_points when that is at least one. */
  lemma TimeIndexShape(t: Trace, maxPoints: int, times: seq<real>)
    requires times == EveryFifth(DataFlash.Records(t)[..Visited(|t.decoded|, Cap(maxPoints))])
    ensures |times| == DataFlash.Min((|t.decoded| + 4) / 5, Cap(maxPoints))
    ensures forall j :: 0 <= j < |times| ==> 5 * j < |t.decoded| && times[j] == DataFlash.Records(t)[5 * j].timestamp
  {
    var records := DataFlash.Records(t);
    var prefix := records[..Visited(|t.decoded|, Cap(maxPoints))];
    EveryFifthLength(prefix);
    EveryFifthAt(prefix);
    forall j | 0 <= j < |times| ensures 5 * j < |t.decoded| && times[j] == records[5 * j].timestamp {
      assert prefix[5 * j] == records[5 * j];
    }
  }
}
