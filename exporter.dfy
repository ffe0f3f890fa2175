/** The trimmed-log writer (core/exporter.py): every message of a DataFlash log
    whose time falls in no removed segment is copied, as its raw record bytes,
    to the destination, in log order. */
module Exporter {
  import opened Messages
  import opened Segments
  import opened LogParser

  /** What the progress callback receives after each message. */
  datatype ExportProgress = ExportProgress(current: int, total: int)

  /** `total_messages or 0`: an absent count reports a total of 0. */
  function Total(totalMessages: Option<int>): int {
    if totalMessages.Some? then totalMessages.value else 0
  }

  /** The bytes a message contributes when it is kept: its raw record, or nothing
      when the decoder kept none. */
  function Raw(m: Message): seq<Byte> {
    if m.buf.Some? then m.buf.value else []
  }

  /** The bytes written for the entries whose time no segment of removeList covers. */
  function KeptBytes(entries: seq<Entry>, removeList: seq<Segment>): seq<Byte> {
    if entries == [] then []
    else
      var last := entries[|entries| - 1];
      KeptBytes(entries[..|entries| - 1], removeList) +
      (if ContainsTime(removeList, last.timestamp) then [] else Raw(last.msg))
  }

  /** The reports of a run over n messages: 1/total, 2/total, ..., n/total. */
  function Reports(n: nat, total: int): (r: seq<ExportProgress>)
    ensures |r| == n
    ensures forall k :: 0 <= k < n ==> r[k] == ExportProgress(k + 1, total)
  {
    seq(n, k requires 0 <= k < n => ExportProgress(k + 1, total))
  }

  /** DataFlashExporter.export over the log the parser decodes: the segments
      are normalised first, every message is read, the kept ones are written
      and progress is reported once per message. */
  method Export(log: seq<Message>, removeSegments: seq<Segment>, reportProgress: bool, totalMessages: Option<int>)
    returns (written: seq<Byte>, progress: seq<ExportProgress>)
    ensures written == KeptBytes(Entries(log), removeSegments)
    ensures progress == if reportProgress then Reports(|log|, Total(totalMessages)) else []
  {
    var removeList := NormalizeSegments(removeSegments);
    var reader := new DataFlashParser(log);
    var entries := reader.IterMessages();
    var index := 0;
    var total := Total(totalMessages);
    written := [];
    progress := [];
    for i := 0 to |entries|
      invariant index == i
      invariant written == KeptBytes(entries[..i], removeSegments)
      invariant progress == if reportProgress then Reports(i, total) else []
    {
      var entry := entries[i];
      var removed := RemoveContainsTime(removeList, entry.timestamp);
      NormalizeCoverage(removeSegments, entry.timestamp);
      KeptStep(entries, removeSegments, i);
      ReportsStep(i, total);
      if !removed {
        var raw := entry.msg.buf;
        if raw.Some? {
          written := written + raw.value;
        }
      }
      index := index + 1;
      if reportProgress {
        progress := progress + [ExportProgress(index, total)];
      }
    }
    assert entries[..|entries|] == entries;
  }

  lemma KeptStep(entries: seq<Entry>, removeList: seq<Segment>, i: nat)
    requires i < |entries|
    ensures KeptBytes(entries[..i + 1], removeList) ==
              KeptBytes(entries[..i], removeList) +
              (if ContainsTime(removeList, entries[i].timestamp) then [] else Raw(entries[i].msg))
  {
    assert entries[..i + 1][..i] == entries[..i];
  }

  lemma ReportsStep(i: nat, total: int)
    ensures Reports(i + 1, total) == Reports(i, total) + [ExportProgress(i + 1, total)]
  {
  }

  /** Normalising the remove list first changes nothing about what is written. */
  lemma {:induction false} KeptBytesNormalized(entries: seq<Entry>, removeSegments: seq<Segment>)
    ensures KeptBytes(entries, Normalize(removeSegments)) == KeptBytes(entries, removeSegments)
  {
    if entries != [] {
      KeptBytesNormalized(entries[..|entries| - 1], removeSegments);
      NormalizeCoverage(removeSegments, entries[|entries| - 1].timestamp);
    }
  }

  /** Exporting is piecewise: the output for a log split in two is the output
      for the first part followed by that for the second. */
  lemma {:induction false} KeptBytesAppend(a: seq<Entry>, b: seq<Entry>, removeList: seq<Segment>)
    ensures KeptBytes(a + b, removeList) == KeptBytes(a, removeList) + KeptBytes(b, removeList)
    decreases |b|
  {
    if b == [] {
      assert a + b == a;
    } else {
      var b' := b[..|b| - 1];
      assert (a + b)[..|a + b| - 1] == a + b';
      KeptBytesAppend(a, b', removeList);
    }
  }

  /** With nothing removed the destination is every raw record, in log order. */
  lemma {:induction false} NothingRemovedCopiesAll(entries: seq<Entry>)
    ensures KeptBytes(entries, []) == AllRaw(entries)
  {
    if entries != [] {
      NothingRemovedCopiesAll(entries[..|entries| - 1]);
    }
  }

  /** The reference concatenation of every entry's raw record. */
  function AllRaw(entries: seq<Entry>): seq<Byte> {
    if entries == [] then [] else AllRaw(entries[..|entries| - 1]) + Raw(entries[|entries| - 1].msg)
  }

  /** A remove list covering the time of every message leaves an empty file. */
  lemma {:induction false} AllRemovedWritesNothing(entries: seq<Entry>, removeList: seq<Segment>)
    requires forall k :: 0 <= k < |entries| ==> ContainsTime(removeList, entries[k].timestamp)
    ensures KeptBytes(entries, removeList) == []
  {
    if entries != [] {
      AllRemovedWritesNothing(entries[..|entries| - 1], removeList);
    }
  }

  /** A message keeps its place: when the entry at position k is kept, its raw
      record appears in the output right after the bytes of the entries before it. */
  lemma KeptInPlace(entries: seq<Entry>, removeList: seq<Segment>, k: nat)
    requires k < |entries| && !ContainsTime(removeList, entries[k].timestamp)
    ensures KeptBytes(entries, removeList) ==
              KeptBytes(entries[..k], removeList) + Raw(entries[k].msg) + KeptBytes(entries[k + 1..], removeList)
  {
    assert entries == entries[..k] + [entries[k]] + entries[k + 1..];
    KeptBytesAppend(entries[..k] + [entries[k]], entries[k + 1..], removeList);
    KeptBytesAppend(entries[..k], [entries[k]], removeList);
    assert KeptBytes([entries[k]], removeList) == Raw(entries[k].msg) by {
      assert [entries[k]][..0] == [];
    }
  }
}
