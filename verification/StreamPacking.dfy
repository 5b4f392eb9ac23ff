// How a stream fills its segments, and what a range read returns.
module StreamPacking {
  import opened Bytes
  import opened Streams

  /**
   * One append: it opens a new segment exactly when the last one has reached the limit and holds
   * something; a last segment that is empty is replaced instead. Otherwise it goes behind what is
   * there. No earlier segment changes.
   */
  lemma AppendRollsIff(st: Store, clock: int, maxSegmentSize: nat, body: Octets, now: int)
    requires StoreOk(st, clock) && clock <= now && st.segments != []
    ensures var x, n, last := Appended(st, maxSegmentSize, body, now), |st.segments|, st.segments[|st.segments| - 1];
      var m := StreamMessage(st.nextOffset, body, now);
      && (last.sizeBytes >= maxSegmentSize && last.messages != [] ==>
            x.segments == st.segments + [StreamSegment(st.nextOffset, [m], now, |body|)])
      && (last.sizeBytes >= maxSegmentSize && last.messages == [] ==>
            x.segments == st.segments[..n - 1] + [StreamSegment(st.nextOffset, [m], now, |body|)])
      && (last.sizeBytes < maxSegmentSize ==>
            x.segments == st.segments[..n - 1]
                          + [last.(messages := last.messages + [m], sizeBytes := last.sizeBytes + |body|)])
  {
    var last, segs := st.segments[|st.segments| - 1], Roll(st, maxSegmentSize, now);
    PutAtEnd(st.segments, st.nextOffset, clock, now);
    Link(st.segments, st.nextOffset, clock, |st.segments| - 1);
    hide Put, StoreOk, Chained;
    AppendedToLast(st, maxSegmentSize, body, now);
    hide Appended;
    FirstOfNew(st.nextOffset, body, now);
    var newest := NewSegment(st.nextOffset, now);
    LastTaken(st.segments, newest);
    LastTaken(st.segments[..|st.segments| - 1], newest);
  }

  lemma AppendedToLast(st: Store, maxSegmentSize: nat, body: Octets, now: int)
    ensures var segs := Roll(st, maxSegmentSize, now);
      segs != [] ==>
        Appended(st, maxSegmentSize, body, now).segments
        == segs[..|segs| - 1] + [segs[|segs| - 1].Append(body, now)]
  {
    hide Put;
    var segs := Roll(st, maxSegmentSize, now);
    if segs != [] { LastReplaced(segs); }
  }

  lemma FirstOfNew(next: nat, body: Octets, now: int)
    ensures NewSegment(next, now).Append(body, now)
         == StreamSegment(next, [StreamMessage(next, body, now)], now, |body|)
  {
    assert [] + [StreamMessage(next, body, now)] == [StreamMessage(next, body, now)];
  }

  lemma LastTaken(segs: seq<StreamSegment>, s: StreamSegment)
    ensures (segs + [s])[..|segs|] == segs && (segs + [s])[|segs|] == s
  {
  }

  lemma LastReplaced(segs: seq<StreamSegment>)
    requires segs != []
    ensures forall s: StreamSegment :: segs[|segs| - 1 := s] == segs[..|segs| - 1] + [s]
  {
  }

  lemma {:induction false} PutAtEnd(segs: seq<StreamSegment>, next: nat, clock: int, now: int)
    requires Chained(segs, next, clock)
    ensures var s, n := NewSegment(next, now), |segs|;
      Put(segs, s) == if segs[n - 1].messages == [] then segs[..n - 1] + [s] else segs + [s]
  {
    var s := NewSegment(next, now);
    LiveIsConsecutive(segs, next, clock);
    if |segs| > 1 {
      PutAtEnd(segs[1..], next, clock, now);
      LiveIsConsecutive(segs[1..], next, clock);
      HeadKept(segs, s);
    } else if segs[0].messages != [] {
      assert Put([], s) == [s] && segs[1..] == [];
    }
  }

  lemma HeadKept(segs: seq<StreamSegment>, s: StreamSegment)
    requires |segs| > 1
    ensures [segs[0]] + (segs[1..][..|segs| - 2] + [s]) == segs[..|segs| - 1] + [s]
    ensures [segs[0]] + (segs[1..] + [s]) == segs + [s]
  {
  }

  // Over whole runs.

  /** Within the limit before its last message. */
  predicate FilledOnce(s: StreamSegment, maxSegmentSize: nat) {
    |s.messages| > 1 ==> s.sizeBytes - |s.messages[|s.messages| - 1].body| < maxSegmentSize
  }

  /** Only segments that reached the limit are closed, and each reached it with its last message. */
  ghost predicate Filled(segs: seq<StreamSegment>, maxSegmentSize: nat) {
    && (forall i :: 0 <= i < |segs| - 1 ==> segs[i].sizeBytes >= maxSegmentSize)
    && forall i :: 0 <= i < |segs| ==> FilledOnce(segs[i], maxSegmentSize)
  }

  lemma AppendKeepsFilled(st: Store, clock: int, maxSegmentSize: nat, body: Octets, now: int)
    requires StoreOk(st, clock) && clock <= now && Filled(st.segments, maxSegmentSize)
    ensures Filled(Appended(st, maxSegmentSize, body, now).segments, maxSegmentSize)
  {
    AppendRollsIff(st, clock, maxSegmentSize, body, now);
    hide Appended, StoreOk;
  }

  lemma RetentionKeepsFilled(st: Store, clock: int, maxSegmentSize: nat, policy: RetentionPolicy, now: int)
    requires StoreOk(st, clock) && Filled(st.segments, maxSegmentSize)
    ensures Filled(Retained(st.segments, policy, now), maxSegmentSize)
  {
    var k := RetentionKeepsNewest(st.segments, st.nextOffset, clock, policy, now);
    hide Retained, StoreOk, Chained, FilledOnce;
    assert forall i :: 0 <= i < |st.segments| - k ==> st.segments[k..][i] == st.segments[k + i];
  }

  /** In every run of appends and retention whose clock never goes back, segments are so filled. */
  lemma {:induction false} SegmentsFill(start: int, maxSegmentSize: nat, ops: seq<Op>)
    requires ClockAdvances(start, ops)
    ensures Filled(After(start, maxSegmentSize, ops).segments, maxSegmentSize)
  {
    if ops != [] {
      var init, op := ops[..|ops| - 1], ops[|ops| - 1];
      SegmentsFill(start, maxSegmentSize, init);
      StoreIsHistoryWithLowWaterMark(start, maxSegmentSize, init);
      hide Filled, StoreOk, Appended, Retained, History, At, Live;
      match op {
        case Append(body, now) =>
          AppendKeepsFilled(After(start, maxSegmentSize, init), ClockAfter(start, init), maxSegmentSize, body, now);
        case ApplyRetention(policy, now) =>
          RetentionKeepsFilled(
            After(start, maxSegmentSize, init), ClockAfter(start, init), maxSegmentSize, policy, now);
      }
    }
  }

  /**
   * A range read returns the messages held from an offset on, or from the oldest one held, without
   * gaps: as many as asked for, at least one, or as many as there are.
   */
  lemma RangeIsRun(st: Store, clock: int, from: nat, limit: nat)
    requires StoreOk(st, clock)
    ensures var r, first := Window(st, from, limit), First(st.segments);
      var start, wanted := if from < first then first else from, if limit == 0 then 1 else limit;
      && |r| == (if start >= st.nextOffset then 0
                 else if st.nextOffset - start < wanted then st.nextOffset - start else wanted)
      && forall i :: 0 <= i < |r| ==> At(st, start + i) == Some(r[i]) && r[i].offset == start + i
  {
    LiveIsConsecutive(st.segments, st.nextOffset, clock);
    hide Live, First;
  }
}
