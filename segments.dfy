/** Interval algebra over time ranges (core/segments.py): validation against the
    log bounds, normalisation (sort, then merge ranges that overlap or touch),
    the complement inside the log bounds, and closed-interval membership. */
module Segments {

  datatype SegmentError = StartNotBeforeEnd | OutsideLogBounds

  /** The outcome of a check that either returns normally or raises ValueError. */
  datatype Check = Pass | Fail(error: SegmentError)

  /** A time range in seconds, closed at both ends. */
  datatype Segment = Segment(start: real, end: real) {

    /** Segment.validate: passes exactly for a non-empty range inside
        [minTime, maxTime]; an empty or inverted range is reported first. */
    function Validate(minTime: real, maxTime: real): (r: Check)
      ensures r.Pass? <==> minTime <= start < end <= maxTime
      ensures r == Fail(StartNotBeforeEnd) <==> start >= end
    {
      if start >= end then Fail(StartNotBeforeEnd)
      else if start < minTime || end > maxTime then Fail(OutsideLogBounds)
      else Pass
    }
  }

  /** validate_segments: the first segment that fails decides the error. */
  function ValidateSegments(segments: seq<Segment>, minTime: real, maxTime: real): (r: Check)
    ensures r.Pass? <==> forall i :: 0 <= i < |segments| ==> segments[i].Validate(minTime, maxTime).Pass?
    ensures r.Fail? ==> exists i :: 0 <= i < |segments| && r == segments[i].Validate(minTime, maxTime) &&
                          forall j :: 0 <= j < i ==> segments[j].Validate(minTime, maxTime).Pass?
  {
    if segments == [] then Pass
    else
      var first := segments[0].Validate(minTime, maxTime);
      if first.Fail? then first
      else
        var rest := ValidateSegments(segments[1..], minTime, maxTime);
        assert rest.Fail? ==> exists i :: 1 <= i < |segments| && rest == segments[i].Validate(minTime, maxTime) &&
                                forall j :: 0 <= j < i ==> segments[j].Validate(minTime, maxTime).Pass? by {
          if rest.Fail? {
            var k :| 0 <= k < |segments[1..]| && rest == segments[1..][k].Validate(minTime, maxTime) &&
                     forall j :: 0 <= j < k ==> segments[1..][j].Validate(minTime, maxTime).Pass?;
            assert forall j :: 0 <= j < k + 1 ==> segments[j].Validate(minTime, maxTime).Pass? by {
              forall j | 0 <= j < k + 1 ensures segments[j].Validate(minTime, maxTime).Pass? {
                if j > 0 { assert segments[j] == segments[1..][j - 1]; }
              }
            }
          }
        }
        rest
  }

  /** The time ts lies in the closed range seg. */
  predicate Covers(seg: Segment, ts: real) {
    seg.start <= ts <= seg.end
  }

  /** contains_time: some segment holds ts, both ends included. */
  function ContainsTime(segments: seq<Segment>, ts: real): (r: bool)
    ensures r <==> exists i :: 0 <= i < |segments| && Covers(segments[i], ts)
  {
    if segments == [] then false
    else Covers(segments[0], ts) || ContainsTime(segments[1..], ts)
  }

  /** remove_contains_time: the same closed-interval test, written as a loop with
      an early return. */
  method RemoveContainsTime(segments: seq<Segment>, ts: real) returns (found: bool)
    ensures found <==> ContainsTime(segments, ts)
  {
    for i := 0 to |segments|
      invariant forall j :: 0 <= j < i ==> !Covers(segments[j], ts)
    {
      if segments[i].start <= ts <= segments[i].end {
        return true;
      }
    }
    return false;
  }

  function Max(a: real, b: real): real {
    if a >= b then a else b
  }

  ghost predicate SortedByStart(s: seq<Segment>) {
    forall i, j :: 0 <= i < j < |s| ==> s[i].start <= s[j].start
  }

  /** Each segment ends strictly before the next one starts: nothing overlaps or touches. */
  ghost predicate Separated(s: seq<Segment>) {
    forall i :: 0 <= i < |s| - 1 ==> s[i].end < s[i + 1].start
  }

  ghost predicate AllProper(s: seq<Segment>) {
    forall i :: 0 <= i < |s| ==> s[i].start < s[i].end
  }

  /** Inserts x before the first segment that does not start earlier. */
  function InsertByStart(x: Segment, s: seq<Segment>): (r: seq<Segment>)
    ensures |r| == |s| + 1
    ensures multiset(r) == multiset(s) + multiset{x}
    ensures forall y :: y in r <==> y == x || y in s
  {
    if s == [] || x.start <= s[0].start then
      [x] + s
    else
      assert s == [s[0]] + s[1..];
      [s[0]] + InsertByStart(x, s[1..])
  }

  lemma {:induction false} InsertByStartSorted(x: Segment, s: seq<Segment>)
    requires SortedByStart(s)
    ensures SortedByStart(InsertByStart(x, s))
  {
    if s != [] && x.start > s[0].start {
      var rest := InsertByStart(x, s[1..]);
      assert SortedByStart(s[1..]);
      InsertByStartSorted(x, s[1..]);
      forall k | 0 <= k < |rest| ensures s[0].start <= rest[k].start {
        assert rest[k] in rest;
        if rest[k] != x {
          var m :| 0 <= m < |s[1..]| && s[1..][m] == rest[k];
          assert s[1..][m] == s[m + 1];
        }
      }
      assert InsertByStart(x, s) == [s[0]] + rest;
    }
  }

  /** sorted(segments, key=lambda s: s.start): a stable sort on the start time. */
  function SortByStart(s: seq<Segment>): (r: seq<Segment>)
    ensures |r| == |s|
    ensures SortedByStart(r)
    ensures multiset(r) == multiset(s)
    ensures forall y :: y in r <==> y in s
  {
    if s == [] then []
    else
      assert s == [s[0]] + s[1..];
      InsertByStartSorted(s[0], SortByStart(s[1..]));
      InsertByStart(s[0], SortByStart(s[1..]))
  }

  /** The segments of s that start at k, in their order in s. */
  function WithStart(s: seq<Segment>, k: real): seq<Segment> {
    if s == [] then [] else (if s[0].start == k then [s[0]] else []) + WithStart(s[1..], k)
  }

  lemma {:induction false} InsertWithStart(x: Segment, s: seq<Segment>, k: real)
    ensures WithStart(InsertByStart(x, s), k) == (if x.start == k then [x] else []) + WithStart(s, k)
  {
    if s == [] || x.start <= s[0].start {
      assert ([x] + s)[1..] == s;
    } else {
      InsertWithStart(x, s[1..], k);
      assert ([s[0]] + InsertByStart(x, s[1..]))[1..] == InsertByStart(x, s[1..]);
    }
  }

  /** The sort is stable: segments with equal start keep their input order. */
  lemma {:induction false} SortByStartIsStable(s: seq<Segment>, k: real)
    ensures WithStart(SortByStart(s), k) == WithStart(s, k)
  {
    if s != [] {
      SortByStartIsStable(s[1..], k);
      InsertWithStart(s[0], SortByStart(s[1..]), k);
    }
  }

  lemma {:induction false} SortSortedIsIdentity(s: seq<Segment>)
    requires SortedByStart(s)
    ensures SortByStart(s) == s
  {
    if s != [] {
      SortSortedIsIdentity(s[1..]);
      assert s == [s[0]] + s[1..];
    }
  }

  /** One turn of the merge loop of normalize_segments: a segment that starts no
      later than the last merged one ends (touching included) extends it;
      any other is appended. */
  function MergeStep(merged: seq<Segment>, seg: Segment): seq<Segment> {
    if merged == [] then [seg]
    else
      var last := merged[|merged| - 1];
      if seg.start <= last.end then merged[..|merged| - 1] + [Segment(last.start, Max(last.end, seg.end))]
      else merged + [seg]
  }

  /** The merge loop run over all of ordered. */
  function Coalesce(ordered: seq<Segment>): seq<Segment> {
    if ordered == [] then []
    else MergeStep(Coalesce(ordered[..|ordered| - 1]), ordered[|ordered| - 1])
  }

  /** normalize_segments, as a function of its input. */
  function Normalize(segments: seq<Segment>): seq<Segment> {
    Coalesce(SortByStart(segments))
  }

  /** normalize_segments: sorts by start, then merges in one pass, overwriting the
      last merged segment in place. */
  method NormalizeSegments(segments: seq<Segment>) returns (merged: seq<Segment>)
    ensures merged == Normalize(segments)
  {
    var ordered := SortByStart(segments);
    merged := [];
    for i := 0 to |ordered|
      invariant merged == Coalesce(ordered[..i])
    {
      assert ordered[..i + 1][..i] == ordered[..i];
      var seg := ordered[i];
      if merged == [] {
        merged := [seg];
        continue;
      }
      var last := merged[|merged| - 1];
      if seg.start <= last.end {
        merged := merged[..|merged| - 1] + [Segment(last.start, Max(last.end, seg.end))];
      } else {
        merged := merged + [seg];
      }
    }
    assert ordered[..|ordered|] == ordered;
  }

  // ---------------------------------------------------------------------------
  // Properties of the merge loop

  /** No segment of s starts after x. */
  ghost predicate StartsAtMost(s: seq<Segment>, x: real) {
    forall i :: 0 <= i < |s| ==> s[i].start <= x
  }

  /** One merge step keeps a sorted, separated list sorted and separated. */
  lemma MergeStepShape(m: seq<Segment>, seg: Segment)
    requires SortedByStart(m) && Separated(m) && StartsAtMost(m, seg.start)
    ensures SortedByStart(MergeStep(m, seg)) && Separated(MergeStep(m, seg))
    ensures 1 <= |MergeStep(m, seg)| <= |m| + 1
    ensures StartsAtMost(MergeStep(m, seg), seg.start)
  {
    if m != [] {
      var last := m[|m| - 1];
      if seg.start <= last.end {
        var r := MergeStep(m, seg);
        assert forall i :: 0 <= i < |m| - 1 ==> r[i] == m[i];
        assert r[|m| - 1].start == last.start;
      }
    }
  }

  /** On a sorted input the merged list is sorted and separated, and no merged
      segment starts after the last input segment. */
  lemma {:induction false} CoalesceShape(ordered: seq<Segment>)
    requires SortedByStart(ordered)
    ensures SortedByStart(Coalesce(ordered)) && Separated(Coalesce(ordered))
    ensures |Coalesce(ordered)| <= |ordered|
    ensures ordered != [] ==>
              (Coalesce(ordered) != [] && StartsAtMost(Coalesce(ordered), ordered[|ordered| - 1].start))
  {
    if ordered != [] {
      var init := ordered[..|ordered| - 1];
      var seg := ordered[|ordered| - 1];
      SortedInit(ordered);
      CoalesceShape(init);
      var m := Coalesce(init);
      if m != [] {
        assert StartsAtMost(m, seg.start) by {
          assert init[|init| - 1].start <= seg.start;
        }
      }
      MergeStepShape(m, seg);
    }
  }

  /** The merge loop leaves the set of covered instants as it was. */
  lemma {:induction false} CoalesceCoverage(ordered: seq<Segment>, ts: real)
    requires SortedByStart(ordered)
    ensures ContainsTime(Coalesce(ordered), ts) == ContainsTime(ordered, ts)
  {
    if ordered != [] {
      var init := ordered[..|ordered| - 1];
      var seg := ordered[|ordered| - 1];
      SortedInit(ordered);
      CoalesceCoverage(init, ts);
      CoalesceShape(init);
      assert ordered == init + [seg];
      ContainsConcat(init, [seg], ts);
      MergeStepCoverage(Coalesce(init), seg, ts);
    }
  }

  /** The prefix of a sorted list is sorted, and its segments start no later
      than the last one. */
  lemma SortedInit(ordered: seq<Segment>)
    requires SortedByStart(ordered) && ordered != []
    ensures SortedByStart(ordered[..|ordered| - 1])
    ensures StartsAtMost(ordered[..|ordered| - 1], ordered[|ordered| - 1].start)
  {
  }

  /** One merge step covers what the merged list covered plus the new segment,
      provided the new segment starts no earlier than the last merged one. */
  lemma MergeStepCoverage(m: seq<Segment>, seg: Segment, ts: real)
    requires StartsAtMost(m, seg.start)
    ensures ContainsTime(MergeStep(m, seg), ts) == (ContainsTime(m, ts) || Covers(seg, ts))
  {
    if m == [] {
      assert ContainsTime([seg], ts) == Covers(seg, ts) by {
        assert [seg][0] == seg;
      }
    } else {
      var last := m[|m| - 1];
      assert last.start <= seg.start;
      assert m == m[..|m| - 1] + [last];
      ContainsConcat(m[..|m| - 1], [last], ts);
      ContainsSingle(last, ts);
      ContainsSingle(seg, ts);
      if seg.start <= last.end {
        var joined := Segment(last.start, Max(last.end, seg.end));
        ContainsConcat(m[..|m| - 1], [joined], ts);
        ContainsSingle(joined, ts);
        assert Covers(joined, ts) <==> Covers(last, ts) || Covers(seg, ts);
      } else {
        ContainsConcat(m, [seg], ts);
      }
    }
  }

  lemma ContainsSingle(seg: Segment, ts: real)
    ensures ContainsTime([seg], ts) == Covers(seg, ts)
  {
    assert [seg][0] == seg;
  }

  lemma ContainsConcat(a: seq<Segment>, b: seq<Segment>, ts: real)
    ensures ContainsTime(a + b, ts) == (ContainsTime(a, ts) || ContainsTime(b, ts))
  {
    if ContainsTime(a + b, ts) {
      var i :| 0 <= i < |a + b| && Covers((a + b)[i], ts);
      if i >= |a| { assert (a + b)[i] == b[i - |a|]; }
    }
    if ContainsTime(b, ts) {
      var i :| 0 <= i < |b| && Covers(b[i], ts);
      assert (a + b)[|a| + i] == b[i];
    }
    if ContainsTime(a, ts) {
      var i :| 0 <= i < |a| && Covers(a[i], ts);
      assert (a + b)[i] == a[i];
    }
  }

  /** A list that is already sorted and separated passes through the merge loop unchanged. */
  lemma {:induction false} CoalesceSeparatedIsIdentity(s: seq<Segment>)
    requires SortedByStart(s) && Separated(s)
    ensures Coalesce(s) == s
  {
    if s != [] {
      var init := s[..|s| - 1];
      assert SortedByStart(init) && Separated(init);
      CoalesceSeparatedIsIdentity(init);
      assert s == init + [s[|s| - 1]];
    }
  }

  /** Merging segments that all have start < end yields segments with start < end. */
  lemma {:induction false} CoalesceProper(ordered: seq<Segment>)
    requires AllProper(ordered)
    ensures AllProper(Coalesce(ordered))
  {
    if ordered != [] {
      var init := ordered[..|ordered| - 1];
      assert AllProper(init);
      CoalesceProper(init);
    }
  }

  /** No merged segment starts later than bound when no input segment does. */
  lemma {:induction false} CoalesceStartsBounded(ordered: seq<Segment>, bound: real)
    requires forall i :: 0 <= i < |ordered| ==> ordered[i].start <= bound
    ensures forall i :: 0 <= i < |Coalesce(ordered)| ==> Coalesce(ordered)[i].start <= bound
  {
    if ordered != [] {
      var init := ordered[..|ordered| - 1];
      CoalesceStartsBounded(init, bound);
    }
  }

  /** Segment a lies inside segment b. */
  predicate Within(a: Segment, b: Segment) {
    b.start <= a.start && a.end <= b.end
  }

  /** On a sorted input the j-th input segment lies inside the i-th merged segment. */
  lemma {:induction false} CoalesceSubsumes(ordered: seq<Segment>, j: nat) returns (i: nat)
    requires SortedByStart(ordered) && j < |ordered|
    ensures i < |Coalesce(ordered)| && Within(ordered[j], Coalesce(ordered)[i])
  {
    var init := ordered[..|ordered| - 1];
    var seg := ordered[|ordered| - 1];
    assert SortedByStart(init);
    CoalesceShape(init);
    var m := Coalesce(init);
    var r := Coalesce(ordered);
    assert r == MergeStep(m, seg);
    if m == [] {
      assert init == [] && j == 0;
      i := 0;
    } else {
      var last := m[|m| - 1];
      assert last.start <= seg.start by {
        assert init[|init| - 1].start <= seg.start;
      }
      if j == |ordered| - 1 {
        i := if seg.start <= last.end then |m| - 1 else |m|;
      } else {
        assert ordered[j] == init[j];
        i := CoalesceSubsumes(init, j);
        if i < |m| - 1 || seg.start > last.end {
          assert r[i] == m[i];
        }
      }
    }
  }

  // ---------------------------------------------------------------------------
  // Properties of normalize_segments

  lemma SameElementsSameCoverage(a: seq<Segment>, b: seq<Segment>, ts: real)
    requires forall y :: y in a <==> y in b
    ensures ContainsTime(a, ts) == ContainsTime(b, ts)
  {
    if ContainsTime(a, ts) {
      var i :| 0 <= i < |a| && Covers(a[i], ts);
      assert a[i] in b;
    }
    if ContainsTime(b, ts) {
      var i :| 0 <= i < |b| && Covers(b[i], ts);
      assert b[i] in a;
    }
  }

  /** The result is sorted by start and no two segments overlap or touch. */
  lemma NormalizeShape(segments: seq<Segment>)
    ensures SortedByStart(Normalize(segments)) && Separated(Normalize(segments))
    ensures |Normalize(segments)| <= |segments|
    ensures segments == [] <==> Normalize(segments) == []
  {
    CoalesceShape(SortByStart(segments));
  }

  /** Normalising keeps exactly the instants the input covers. */
  lemma NormalizeCoverage(segments: seq<Segment>, ts: real)
    ensures ContainsTime(Normalize(segments), ts) == ContainsTime(segments, ts)
  {
    CoalesceCoverage(SortByStart(segments), ts);
    SameElementsSameCoverage(SortByStart(segments), segments, ts);
  }

  lemma NormalizeIdempotent(segments: seq<Segment>)
    ensures Normalize(Normalize(segments)) == Normalize(segments)
  {
    var n := Normalize(segments);
    NormalizeShape(segments);
    SortSortedIsIdentity(n);
    CoalesceSeparatedIsIdentity(n);
  }

  /** Ranges with start < end stay that way after merging. */
  lemma NormalizeProper(segments: seq<Segment>)
    requires AllProper(segments)
    ensures AllProper(Normalize(segments))
  {
    var o := SortByStart(segments);
    forall i | 0 <= i < |o| ensures o[i].start < o[i].end {
      assert o[i] in segments;
    }
    CoalesceProper(o);
  }

  /** Every input segment lies inside one segment of the result. */
  lemma NormalizeSubsumes(segments: seq<Segment>, j: nat) returns (i: nat)
    requires j < |segments|
    ensures i < |Normalize(segments)| && Within(segments[j], Normalize(segments)[i])
  {
    var o := SortByStart(segments);
    assert segments[j] in o;
    var k :| 0 <= k < |o| && o[k] == segments[j];
    i := CoalesceSubsumes(o, k);
  }

  lemma NormalizeStartsBounded(segments: seq<Segment>, bound: real)
    requires forall i :: 0 <= i < |segments| ==> segments[i].start <= bound
    ensures forall i :: 0 <= i < |Normalize(segments)| ==> Normalize(segments)[i].start <= bound
  {
    var o := SortByStart(segments);
    forall i | 0 <= i < |o| ensures o[i].start <= bound {
      assert o[i] in segments;
    }
    CoalesceStartsBounded(o, bound);
  }

  // ---------------------------------------------------------------------------
  // remove_segments: the complement inside [durationStart, durationEnd]

  /** What the cursor walk emits from cursor on, over the (normalised) remove list. */
  function Gaps(cursor: real, remove: seq<Segment>, durationEnd: real): seq<Segment>
    decreases |remove|
  {
    if remove == [] then
      (if cursor < durationEnd then [Segment(cursor, durationEnd)] else [])
    else
      (if cursor < remove[0].start then [Segment(cursor, remove[0].start)] else [])
      + Gaps(Max(cursor, remove[0].end), remove[1..], durationEnd)
  }

  /** remove_segments, as a function of its inputs. */
  function KeepRanges(durationStart: real, durationEnd: real, remove: seq<Segment>): seq<Segment> {
    Gaps(durationStart, Normalize(remove), durationEnd)
  }

  /** remove_segments: normalises the remove list, then walks a cursor from
      durationStart, emitting the gap before each remove segment and the tail. */
  method RemoveSegments(durationStart: real, durationEnd: real, remove: seq<Segment>) returns (keep: seq<Segment>)
    ensures keep == KeepRanges(durationStart, durationEnd, remove)
  {
    var removeList := NormalizeSegments(remove);
    keep := [];
    var cursor := durationStart;
    for i := 0 to |removeList|
      invariant keep + Gaps(cursor, removeList[i..], durationEnd) == Gaps(durationStart, removeList, durationEnd)
    {
      var seg := removeList[i];
      GapsUnfold(cursor, removeList, i, durationEnd);
      if cursor < seg.start {
        keep := keep + [Segment(cursor, seg.start)];
      }
      cursor := Max(cursor, seg.end);
    }
    if cursor < durationEnd {
      keep := keep + [Segment(cursor, durationEnd)];
    }
  }

  lemma GapsUnfold(cursor: real, remove: seq<Segment>, i: nat, durationEnd: real)
    requires i < |remove|
    ensures Gaps(cursor, remove[i..], durationEnd)
         == (if cursor < remove[i].start then [Segment(cursor, remove[i].start)] else [])
            + Gaps(Max(cursor, remove[i].end), remove[i + 1..], durationEnd)
  {
    assert remove[i..][1..] == remove[i + 1..];
  }

  /** Every emitted range is non-empty and starts at or after the cursor; it ends
      no later than durationEnd when no remove segment starts after it. */
  lemma {:induction false} GapsBounds(cursor: real, remove: seq<Segment>, durationEnd: real)
    ensures forall k :: 0 <= k < |Gaps(cursor, remove, durationEnd)| ==>
              cursor <= Gaps(cursor, remove, durationEnd)[k].start < Gaps(cursor, remove, durationEnd)[k].end
    ensures (forall i :: 0 <= i < |remove| ==> remove[i].start <= durationEnd) ==>
              forall k :: 0 <= k < |Gaps(cursor, remove, durationEnd)| ==> Gaps(cursor, remove, durationEnd)[k].end <= durationEnd
    decreases |remove|
  {
    if remove != [] {
      GapsBounds(Max(cursor, remove[0].end), remove[1..], durationEnd);
    }
  }

  /** Over remove segments with start < end the emitted ranges are separated. */
  lemma {:induction false} GapsSeparated(cursor: real, remove: seq<Segment>, durationEnd: real)
    requires AllProper(remove)
    ensures Separated(Gaps(cursor, remove, durationEnd))
    decreases |remove|
  {
    if remove != [] {
      var c := Max(cursor, remove[0].end);
      assert AllProper(remove[1..]);
      GapsSeparated(c, remove[1..], durationEnd);
      GapsBounds(c, remove[1..], durationEnd);
    }
  }

  /** An instant in [cursor, durationEnd] that no remove segment covers is kept
      (as long as the range is not a single instant). */
  lemma {:induction false} GapsComplement(cursor: real, remove: seq<Segment>, durationEnd: real, ts: real)
    requires cursor < durationEnd && cursor <= ts <= durationEnd
    requires !ContainsTime(remove, ts)
    ensures ContainsTime(Gaps(cursor, remove, durationEnd), ts)
    decreases |remove|
  {
    if remove == [] {
      assert Covers(Gaps(cursor, remove, durationEnd)[0], ts);
    } else {
      var head := if cursor < remove[0].start then [Segment(cursor, remove[0].start)] else [];
      var c := Max(cursor, remove[0].end);
      ContainsConcat(head, Gaps(c, remove[1..], durationEnd), ts);
      assert !Covers(remove[0], ts);
      if ts < remove[0].start {
        assert Covers(head[0], ts);
      } else {
        assert !ContainsTime(remove[1..], ts) by {
          ContainsConcat([remove[0]], remove[1..], ts);
          assert remove == [remove[0]] + remove[1..];
        }
        GapsComplement(c, remove[1..], durationEnd, ts);
      }
    }
  }

  /** A kept instant lies at or after the cursor and strictly inside no segment
      of a sorted remove list. */
  lemma {:induction false} GapsSound(cursor: real, remove: seq<Segment>, durationEnd: real, ts: real)
    requires SortedByStart(remove)
    requires ContainsTime(Gaps(cursor, remove, durationEnd), ts)
    ensures cursor <= ts
    ensures forall i :: 0 <= i < |remove| ==> !(remove[i].start < ts < remove[i].end)
    decreases |remove|
  {
    GapsBounds(cursor, remove, durationEnd);
    if remove != [] {
      var head := if cursor < remove[0].start then [Segment(cursor, remove[0].start)] else [];
      var c := Max(cursor, remove[0].end);
      ContainsConcat(head, Gaps(c, remove[1..], durationEnd), ts);
      if ContainsTime(head, ts) {
        assert ts <= remove[0].start;
      } else {
        assert SortedByStart(remove[1..]);
        GapsSound(c, remove[1..], durationEnd, ts);
        forall i | 1 <= i < |remove| ensures !(remove[i].start < ts < remove[i].end) {
          assert remove[i] == remove[1..][i - 1];
        }
      }
    }
  }

  /** Every kept range is non-empty and lies inside the log bounds, provided no
      remove segment starts after durationEnd. */
  lemma KeepRangesInBounds(durationStart: real, durationEnd: real, remove: seq<Segment>)
    requires forall i :: 0 <= i < |remove| ==> remove[i].start <= durationEnd
    ensures forall k :: 0 <= k < |KeepRanges(durationStart, durationEnd, remove)| ==>
              durationStart <= KeepRanges(durationStart, durationEnd, remove)[k].start
                < KeepRanges(durationStart, durationEnd, remove)[k].end <= durationEnd
  {
    NormalizeStartsBounded(remove, durationEnd);
    GapsBounds(durationStart, Normalize(remove), durationEnd);
  }

  /** Over remove segments with start < end the kept ranges are sorted and
      neither overlap nor touch. */
  lemma KeepRangesSeparated(durationStart: real, durationEnd: real, remove: seq<Segment>)
    requires AllProper(remove)
    ensures Separated(KeepRanges(durationStart, durationEnd, remove))
    ensures SortedByStart(KeepRanges(durationStart, durationEnd, remove))
  {
    var keep := KeepRanges(durationStart, durationEnd, remove);
    NormalizeProper(remove);
    GapsSeparated(durationStart, Normalize(remove), durationEnd);
    GapsBounds(durationStart, Normalize(remove), durationEnd);
    SeparatedProperIsSorted(keep);
  }

  lemma {:induction false} SeparatedProperIsSorted(s: seq<Segment>)
    requires Separated(s) && AllProper(s)
    ensures SortedByStart(s)
    decreases |s|
  {
    if |s| > 1 {
      assert Separated(s[1..]) && AllProper(s[1..]);
      SeparatedProperIsSorted(s[1..]);
      forall i, j | 0 <= i < j < |s| ensures s[i].start <= s[j].start {
        if i > 0 {
          assert s[i] == s[1..][i - 1] && s[j] == s[1..][j - 1];
        } else if j > 1 {
          assert s[1..][0].start <= s[1..][j - 1].start;
        }
      }
    }
  }

  /** Complement: an instant of the log that no remove segment covers is kept. */
  lemma KeepRangesComplement(durationStart: real, durationEnd: real, remove: seq<Segment>, ts: real)
    requires durationStart < durationEnd && durationStart <= ts <= durationEnd
    requires !ContainsTime(remove, ts)
    ensures ContainsTime(KeepRanges(durationStart, durationEnd, remove), ts)
  {
    NormalizeCoverage(remove, ts);
    GapsComplement(durationStart, Normalize(remove), durationEnd, ts);
  }

  /** Soundness: a kept instant lies at or after durationStart and strictly inside
      no remove segment (it may be the shared endpoint of a closed remove range). */
  lemma KeepRangesSound(durationStart: real, durationEnd: real, remove: seq<Segment>, ts: real)
    requires ContainsTime(KeepRanges(durationStart, durationEnd, remove), ts)
    ensures durationStart <= ts
    ensures forall j :: 0 <= j < |remove| ==> !(remove[j].start < ts < remove[j].end)
  {
    var n := Normalize(remove);
    NormalizeShape(remove);
    GapsSound(durationStart, n, durationEnd, ts);
    forall j | 0 <= j < |remove| ensures !(remove[j].start < ts < remove[j].end) {
      var i := NormalizeSubsumes(remove, j);
    }
  }

  // ---------------------------------------------------------------------------
  // The scenarios of tests/test_segments.py and worked examples of normalize_segments and
  // remove_segments, stated on the functions that exist

  /** normalize([(0,2),(1,3),(4,5)]) == [(0,3),(4,5)] */
  lemma NormalizeMergesOverlaps()
    ensures Normalize([Segment(0.0, 2.0), Segment(1.0, 3.0), Segment(4.0, 5.0)]) == [Segment(0.0, 3.0), Segment(4.0, 5.0)]
  {
    var s := [Segment(0.0, 2.0), Segment(1.0, 3.0), Segment(4.0, 5.0)];
    SortSortedIsIdentity(s);
    MergeThree(s);
  }

  lemma MergeThree(s: seq<Segment>)
    requires s == [Segment(0.0, 2.0), Segment(1.0, 3.0), Segment(4.0, 5.0)]
    ensures Coalesce(s) == [Segment(0.0, 3.0), Segment(4.0, 5.0)]
  {
    var a, b, c := s[0], s[1], s[2];
    assert [a][..0] == [];
    assert Coalesce([a]) == [a];
    assert [a, b][..1] == [a];
    assert Coalesce([a, b]) == MergeStep([a], b) == [Segment(0.0, 3.0)];
    assert s[..2] == [a, b];
    assert Coalesce(s) == MergeStep([Segment(0.0, 3.0)], c);
  }

  /** add_remove_segment([(0,2)], (1,3)) is normalize([(0,2),(1,3)]) == [(0,3)] */
  lemma AddRemoveSegmentMerges()
    ensures Normalize([Segment(0.0, 2.0)] + [Segment(1.0, 3.0)]) == [Segment(0.0, 3.0)]
  {
    var a, b := Segment(0.0, 2.0), Segment(1.0, 3.0);
    var s := [a] + [b];
    assert s == [a, b];
    SortSortedIsIdentity(s);
    assert [a][..0] == [];
    assert Coalesce([a]) == [a];
    assert s[..1] == [a];
    assert Coalesce(s) == MergeStep([a], b);
  }

  /** trim_to_selection((0,10), (3,7)) is remove_segments(0, 10, [(3,7)]) == [(0,3),(7,10)] */
  lemma TrimToSelection()
    ensures KeepRanges(0.0, 10.0, [Segment(3.0, 7.0)]) == [Segment(0.0, 3.0), Segment(7.0, 10.0)]
  {
    var s := [Segment(3.0, 7.0)];
    SortSortedIsIdentity(s);
    CoalesceSeparatedIsIdentity(s);
    assert s[1..] == [];
  }

  /** Bounds (0,10), remove [(2,4),(6,7)]: kept [(0,2),(4,6),(7,10)] */
  lemma InvertTwoSegments()
    ensures KeepRanges(0.0, 10.0, [Segment(2.0, 4.0), Segment(6.0, 7.0)])
         == [Segment(0.0, 2.0), Segment(4.0, 6.0), Segment(7.0, 10.0)]
  {
    var s := [Segment(2.0, 4.0), Segment(6.0, 7.0)];
    SortSortedIsIdentity(s);
    CoalesceSeparatedIsIdentity(s);
    assert s[1..] == [Segment(6.0, 7.0)];
    assert s[1..][1..] == [];
  }

  /** validate_segments rejects an inverted range and a range before the log start. */
  lemma ValidationRejects()
    ensures ValidateSegments([Segment(5.0, 3.0)], 0.0, 10.0) == Fail(StartNotBeforeEnd)
    ensures ValidateSegments([Segment(-1.0, 2.0)], 0.0, 10.0) == Fail(OutsideLogBounds)
  {
  }
}
