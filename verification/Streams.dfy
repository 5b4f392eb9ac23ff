// The stream store: an append-only log in segments with retention. It behaves like the full
// history of appended messages together with a low-water mark.
module Streams {
  import opened Bytes

  datatype StreamMessage = StreamMessage(offset: nat, body: Octets, timestamp: int)

  datatype StreamSegment = StreamSegment(
    startOffset: nat, messages: seq<StreamMessage>, createdAt: int, sizeBytes: nat)
  {
    function NextOffset(): nat {
      startOffset + |messages|
    }

    function Append(body: Octets, now: int): StreamSegment {
      this.(messages := messages + [StreamMessage(NextOffset(), body, now)],
            sizeBytes := sizeBytes + |body|)
    }

    function Get(offset: nat): Option<StreamMessage> {
      if offset < startOffset || offset - startOffset >= |messages| then None
      else Some(messages[offset - startOffset])
    }
  }

  function NewSegment(start: nat, now: int): StreamSegment {
    StreamSegment(start, [], now, 0)
  }

  datatype RetentionPolicy = RetentionPolicy(maxAge: Option<int>, maxBytes: Option<nat>)

  /** The segments in the order of their start offsets, which are their keys. */
  datatype Store = Store(segments: seq<StreamSegment>, nextOffset: nat)

  function NewStore(now: int): Store {
    Store([NewSegment(0, now)], 0)
  }

  /** Inserting under a key: in key order, replacing the segment with the same key. */
  function Put(segs: seq<StreamSegment>, s: StreamSegment): seq<StreamSegment> {
    if segs == [] || s.startOffset < segs[0].startOffset then [s] + segs
    else if s.startOffset == segs[0].startOffset then [s] + segs[1..]
    else [segs[0]] + Put(segs[1..], s)
  }

  function Without(segs: seq<StreamSegment>, key: nat): seq<StreamSegment> {
    if segs == [] then []
    else if segs[0].startOffset == key then segs[1..]
    else [segs[0]] + Without(segs[1..], key)
  }

  function NeedsRoll(st: Store, maxSegmentSize: nat): bool {
    st.segments == [] || st.segments[|st.segments| - 1].sizeBytes >= maxSegmentSize
  }

  function Roll(st: Store, maxSegmentSize: nat, now: int): seq<StreamSegment> {
    if NeedsRoll(st, maxSegmentSize) then Put(st.segments, NewSegment(st.nextOffset, now))
    else st.segments
  }

  function Appended(st: Store, maxSegmentSize: nat, body: Octets, now: int): Store {
    var segs := Roll(st, maxSegmentSize, now);
    if segs == [] then st
    else
      var last := segs[|segs| - 1];
      Store(segs[|segs| - 1 := last.Append(body, now)], last.NextOffset() + 1)
  }

  function TotalBytes(segs: seq<StreamSegment>): nat {
    if segs == [] then 0 else segs[0].sizeBytes + TotalBytes(segs[1..])
  }

  /** The keys of the segments older than the limit, in order. */
  function Expired(segs: seq<StreamSegment>, maxAge: int, now: int): seq<nat> {
    if segs == [] then []
    else if now - segs[0].createdAt > maxAge
    then [segs[0].startOffset] + Expired(segs[1..], maxAge, now)
    else Expired(segs[1..], maxAge, now)
  }

  /** Removes the given segments, but never the only one left. */
  function Evict(segs: seq<StreamSegment>, keys: seq<nat>): seq<StreamSegment>
    decreases |keys|
  {
    if keys == [] then segs
    else Evict(if |segs| > 1 then Without(segs, keys[0]) else segs, keys[1..])
  }

  function Shrink(segs: seq<StreamSegment>, maxBytes: nat): seq<StreamSegment>
    decreases |segs|
  {
    if TotalBytes(segs) > maxBytes && |segs| > 1 then Shrink(segs[1..], maxBytes) else segs
  }

  function Retained(segs: seq<StreamSegment>, policy: RetentionPolicy, now: int)
    : seq<StreamSegment>
  {
    var young := if policy.maxAge.Some? then Evict(segs, Expired(segs, policy.maxAge.value, now))
                 else segs;
    if policy.maxBytes.Some? then Shrink(young, policy.maxBytes.value) else young
  }

  // What a well-formed store holds.

  function BytesOf(ms: seq<StreamMessage>): nat {
    if ms == [] then 0 else |ms[0].body| + BytesOf(ms[1..])
  }

  function Live(segs: seq<StreamSegment>): seq<StreamMessage> {
    if segs == [] then [] else segs[0].messages + Live(segs[1..])
  }

  ghost predicate SegmentOk(s: StreamSegment) {
    && (forall i :: 0 <= i < |s.messages| ==> s.messages[i].offset == s.startOffset + i)
    && s.sizeBytes == BytesOf(s.messages)
  }

  /** Segments follow each other without gaps, and only the last can be empty. */
  ghost predicate Chained(segs: seq<StreamSegment>, next: nat, clock: int) {
    && segs != [] && SegmentOk(segs[0]) && segs[0].createdAt <= clock
    && if |segs| == 1 then segs[0].NextOffset() == next
       else && segs[0].messages != [] && segs[1].startOffset == segs[0].NextOffset()
            && segs[0].createdAt <= segs[1].createdAt
            && Chained(segs[1..], next, clock)
  }

  ghost predicate StoreOk(st: Store, clock: int) {
    Chained(st.segments, st.nextOffset, clock)
  }

  function First(segs: seq<StreamSegment>): nat {
    if segs == [] then 0 else segs[0].startOffset
  }

  /** The message at an offset that is still held. */
  function At(st: Store, offset: nat): Option<StreamMessage> {
    var live, first := Live(st.segments), First(st.segments);
    if first <= offset < first + |live| then Some(live[offset - first]) else None
  }

  /** At least one and at most `limit` messages held from an offset onward. */
  function Window(st: Store, from: nat, limit: nat): seq<StreamMessage> {
    var live, first := Live(st.segments), First(st.segments);
    var start := if from < first then 0 else from - first;
    var count := if limit == 0 then 1 else limit;
    if start >= |live| then []
    else if start + count <= |live| then live[start..start + count] else live[start..]
  }

  lemma {:induction false} LiveJoin(a: seq<StreamSegment>, b: seq<StreamSegment>)
    ensures Live(a + b) == Live(a) + Live(b)
  {
    if a == [] {
      assert a + b == b;
    } else {
      assert (a + b)[1..] == a[1..] + b;
      LiveJoin(a[1..], b);
    }
  }

  lemma {:induction false} BytesJoin(a: seq<StreamMessage>, b: seq<StreamMessage>)
    ensures BytesOf(a + b) == BytesOf(a) + BytesOf(b)
  {
    if a == [] {
      assert a + b == b;
    } else {
      assert (a + b)[1..] == a[1..] + b;
      BytesJoin(a[1..], b);
    }
  }

  /** What is held is numbered consecutively from the first segment's start to the end. */
  lemma {:induction false} LiveIsConsecutive(segs: seq<StreamSegment>, next: nat, clock: int)
    requires Chained(segs, next, clock)
    ensures First(segs) + |Live(segs)| == next
    ensures forall i :: 0 <= i < |Live(segs)| ==> Live(segs)[i].offset == First(segs) + i
    ensures TotalBytes(segs) == BytesOf(Live(segs))
  {
    var head := segs[0];
    assert SegmentOk(head);
    BytesJoin(head.messages, Live(segs[1..]));
    if |segs| > 1 {
      LiveIsConsecutive(segs[1..], next, clock);
    }
  }

  /** The messages of one segment are a stretch of what is held. */
  lemma {:induction false} LiveStretch(segs: seq<StreamSegment>, next: nat, clock: int, k: nat)
    requires Chained(segs, next, clock) && k < |segs|
    ensures var p := segs[k].startOffset - First(segs);
      && 0 <= p && p + |segs[k].messages| <= |Live(segs)|
      && Live(segs)[p..p + |segs[k].messages|] == segs[k].messages
  {
    if k > 0 {
      LiveStretch(segs[1..], next, clock, k - 1);
    }
  }

  // Appending.

  /** A new last segment takes the place of an empty one and follows a nonempty one. */
  lemma {:induction false} PutKeepsLive(segs: seq<StreamSegment>, next: nat, clock: int, now: int)
    requires Chained(segs, next, clock) && clock <= now
    ensures var x := Put(segs, NewSegment(next, now));
      Chained(x, next, now) && Live(x) == Live(segs) && First(x) == First(segs)
  {
    var s := NewSegment(next, now);
    LiveIsConsecutive(segs, next, clock);
    if |segs| > 1 {
      PutKeepsLive(segs[1..], next, clock, now);
      LiveIsConsecutive(segs[1..], next, clock);
      assert Put(segs, s) == [segs[0]] + Put(segs[1..], s);
      assert Put(segs, s)[1..] == Put(segs[1..], s);
    } else if segs[0].messages == [] {
      assert Put(segs, s) == [s];
    } else {
      assert Put(segs[1..], s) == [s];
      assert Put(segs, s) == [segs[0], s];
      assert [segs[0], s][1..] == [s];
    }
  }

  lemma {:induction false} LaterClock(segs: seq<StreamSegment>, next: nat, clock: int, now: int)
    requires Chained(segs, next, clock) && clock <= now
    ensures Chained(segs, next, now)
  {
    if |segs| > 1 { LaterClock(segs[1..], next, clock, now); }
  }

  lemma AppendToOnly(s: StreamSegment, next: nat, now: int, body: Octets)
    requires Chained([s], next, now)
    ensures var x := [s.Append(body, now)];
      Chained(x, next + 1, now) && Live(x) == Live([s]) + [StreamMessage(next, body, now)]
  {
    BytesJoin(s.messages, [StreamMessage(next, body, now)]);
    assert BytesOf([StreamMessage(next, body, now)]) == |body|;
    hide BytesOf;
    var x := [s.Append(body, now)];
    assert x[1..] == [] && [s][1..] == [];
  }

  lemma {:induction false} AppendToLast(segs: seq<StreamSegment>, next: nat, now: int, body: Octets)
    requires Chained(segs, next, now)
    ensures var last := segs[|segs| - 1]; last.NextOffset() == next
    ensures var x := segs[|segs| - 1 := segs[|segs| - 1].Append(body, now)];
      && Chained(x, next + 1, now) && First(x) == First(segs)
      && Live(x) == Live(segs) + [StreamMessage(next, body, now)]
  {
    hide SegmentOk;
    var last := segs[|segs| - 1];
    var x := segs[|segs| - 1 := last.Append(body, now)];
    if |segs| == 1 {
      hide Chained, Live;
      assert segs == [last] && x == [last.Append(body, now)];
      AppendToOnly(last, next, now, body);
    } else {
      AppendToLast(segs[1..], next, now, body);
      assert x[1..] == segs[1..][|segs| - 2 := last.Append(body, now)];
      assert x[0] == segs[0] && x[1].startOffset == segs[1].startOffset && x[1].createdAt == segs[1].createdAt;
      LiveStep(segs);
      LiveStep(x);
      hide Live;
    }
  }

  lemma LiveStep(segs: seq<StreamSegment>)
    requires segs != []
    ensures Live(segs) == segs[0].messages + Live(segs[1..])
  {
  }

  /** An append adds one message, numbered by the appends before it, and moves no other. */
  lemma AppendExtends(st: Store, clock: int, maxSegmentSize: nat, body: Octets, now: int)
    requires StoreOk(st, clock) && clock <= now
    ensures var x := Appended(st, maxSegmentSize, body, now);
      && StoreOk(x, now) && x.nextOffset == st.nextOffset + 1
      && First(x.segments) == First(st.segments)
      && Live(x.segments) == Live(st.segments) + [StreamMessage(st.nextOffset, body, now)]
  {
    PutKeepsLive(st.segments, st.nextOffset, clock, now);
    LaterClock(st.segments, st.nextOffset, clock, now);
    hide Live, First, Put, SegmentOk;
    AppendToLast(Roll(st, maxSegmentSize, now), st.nextOffset, now, body);
  }

  // Retention.

  /** The segments left after dropping the `k` oldest. */
  lemma {:induction false} SuffixIsChained(segs: seq<StreamSegment>, next: nat, clock: int, k: nat)
    requires Chained(segs, next, clock) && k < |segs|
    ensures Chained(segs[k..], next, clock)
    ensures First(segs) <= First(segs[k..]) <= First(segs) + |Live(segs)|
    ensures Live(segs[k..]) == Live(segs)[First(segs[k..]) - First(segs)..]
  {
    LiveIsConsecutive(segs, next, clock);
    if k == 0 {
      assert segs[0..] == segs;
    } else {
      LiveIsConsecutive(segs[1..], next, clock);
      SuffixIsChained(segs[1..], next, clock, k - 1);
      assert segs[1..][k - 1..] == segs[k..];
    }
  }

  /** How many of the oldest segments are older than the limit. */
  function ExpiredCount(segs: seq<StreamSegment>, maxAge: int, now: int): (k: nat)
    ensures k <= |segs|
    ensures forall i :: 0 <= i < k ==> now - segs[i].createdAt > maxAge
    ensures k < |segs| ==> now - segs[k].createdAt <= maxAge
  {
    if segs == [] || now - segs[0].createdAt <= maxAge then 0
    else 1 + ExpiredCount(segs[1..], maxAge, now)
  }

  lemma {:induction false} NothingExpired(
    segs: seq<StreamSegment>, next: nat, clock: int, maxAge: int, now: int)
    requires Chained(segs, next, clock) && now - segs[0].createdAt <= maxAge
    ensures Expired(segs, maxAge, now) == []
  {
    if |segs| > 1 { NothingExpired(segs[1..], next, clock, maxAge, now); }
  }

  /**
   * Segments are created in order, so the expired ones are the oldest: evicting by age drops
   * exactly those, except the newest segment.
   */
  lemma {:induction false} EvictDropsOldest(
    segs: seq<StreamSegment>, next: nat, clock: int, maxAge: int, now: int)
    requires Chained(segs, next, clock)
    ensures var k := ExpiredCount(segs, maxAge, now);
      Evict(segs, Expired(segs, maxAge, now)) == if k < |segs| then segs[k..] else segs[|segs| - 1..]
  {
    if now - segs[0].createdAt <= maxAge {
      NothingExpired(segs, next, clock, maxAge, now);
      assert segs[0..] == segs;
    } else if |segs| > 1 {
      EvictDropsOldest(segs[1..], next, clock, maxAge, now);
      assert Expired(segs, maxAge, now)[1..] == Expired(segs[1..], maxAge, now);
    } else {
      assert Expired(segs[1..], maxAge, now) == [];
      assert Expired(segs, maxAge, now)[1..] == [];
    }
  }

  /** Shrinking drops the oldest segments, and no more than the limit asks for. */
  lemma {:induction false} ShrinkDropsOldest(segs: seq<StreamSegment>, maxBytes: nat)
    returns (k: nat)
    requires segs != []
    ensures k < |segs| && Shrink(segs, maxBytes) == segs[k..]
    ensures TotalBytes(segs[k..]) <= maxBytes || k == |segs| - 1
    ensures forall j :: 0 <= j < k ==> TotalBytes(segs[j..]) > maxBytes
    decreases |segs|
  {
    k := 0;
    assert segs[0..] == segs;
    if TotalBytes(segs) > maxBytes && |segs| > 1 {
      var i := ShrinkDropsOldest(segs[1..], maxBytes);
      k := i + 1;
      assert segs[1..][i..] == segs[k..];
      forall j | 0 <= j < k ensures TotalBytes(segs[j..]) > maxBytes {
        if j > 0 { assert segs[1..][j - 1..] == segs[j..]; }
      }
    }
  }

  /**
   * Retention keeps the newest segments: at least one, none of them expired unless it is the
   * only one, and within the byte limit unless it is the only one. It drops a segment only
   * when that segment was expired or the bytes from it onward, after the expired ones are
   * gone, exceed the limit.
   */
  lemma RetentionKeepsNewest(
    segs: seq<StreamSegment>, next: nat, clock: int, policy: RetentionPolicy, now: int)
    returns (k: nat)
    requires Chained(segs, next, clock)
    ensures k < |segs| && Retained(segs, policy, now) == segs[k..]
    ensures Chained(segs[k..], next, clock) && First(segs) <= First(segs[k..])
            <= First(segs) + |Live(segs)|
    ensures Live(segs[k..]) == Live(segs)[First(segs[k..]) - First(segs)..]
    ensures policy.maxBytes.Some? ==>
              BytesOf(Live(segs[k..])) <= policy.maxBytes.value || k == |segs| - 1
    ensures policy.maxAge.Some? ==>
              now - segs[k].createdAt <= policy.maxAge.value || k == |segs| - 1
    ensures forall j :: 0 <= j < k ==>
              || (policy.maxAge.Some? && now - segs[j].createdAt > policy.maxAge.value)
              || (policy.maxBytes.Some? && TotalBytes(segs[j..]) > policy.maxBytes.value)
  {
    hide Live, Chained, TotalBytes, BytesOf, Shrink, Evict, Expired, First;
    var a := AgeDropsOldest(segs, next, clock, policy.maxAge, now);
    var young, b := segs[a..], 0;
    if policy.maxBytes.Some? {
      b := ShrinkDropsOldest(young, policy.maxBytes.value);
    }
    k := a + b;
    SuffixIsChained(segs, next, clock, k);
    LiveIsConsecutive(segs[k..], next, clock);
    YoungStayYoung(segs, next, clock, a, k);
    assert young[b..] == segs[k..] && young[0..] == young;
    assert forall j :: a <= j < k ==> young[j - a..] == segs[j..];
  }

  lemma AgeDropsOldest(
    segs: seq<StreamSegment>, next: nat, clock: int, maxAge: Option<int>, now: int)
    returns (a: nat)
    requires Chained(segs, next, clock)
    ensures a < |segs|
    ensures segs[a..] == if maxAge.Some? then Evict(segs, Expired(segs, maxAge.value, now)) else segs
    ensures forall j :: 0 <= j < a ==> maxAge.Some? && now - segs[j].createdAt > maxAge.value
    ensures maxAge.Some? ==> now - segs[a].createdAt <= maxAge.value || a == |segs| - 1
  {
    a := 0;
    assert segs[0..] == segs;
    if maxAge.Some? {
      EvictDropsOldest(segs, next, clock, maxAge.value, now);
      a := ExpiredCount(segs, maxAge.value, now);
      if a == |segs| { a := |segs| - 1; }
    }
  }

  lemma {:induction false} YoungStayYoung(
    segs: seq<StreamSegment>, next: nat, clock: int, a: nat, k: nat)
    requires Chained(segs, next, clock) && a <= k < |segs|
    ensures segs[a].createdAt <= segs[k].createdAt
  {
    if a > 0 {
      YoungStayYoung(segs[1..], next, clock, a - 1, k - 1);
    } else if k > 0 {
      YoungStayYoung(segs[1..], next, clock, 0, k - 1);
    }
  }

  // Whole runs.

  datatype Op = Append(body: Octets, now: int) | ApplyRetention(policy: RetentionPolicy, now: int)

  function Exec(st: Store, maxSegmentSize: nat, op: Op): Store {
    match op
    case Append(body, now) => Appended(st, maxSegmentSize, body, now)
    case ApplyRetention(policy, now) => st.(segments := Retained(st.segments, policy, now))
  }

  /** The store after `ops`, created at `start`. */
  function After(start: int, maxSegmentSize: nat, ops: seq<Op>): Store {
    if ops == [] then NewStore(start)
    else Exec(After(start, maxSegmentSize, ops[..|ops| - 1]), maxSegmentSize, ops[|ops| - 1])
  }

  /** Everything ever appended, whatever retention did. */
  function History(ops: seq<Op>): seq<StreamMessage> {
    if ops == [] then []
    else
      var before := History(ops[..|ops| - 1]);
      match ops[|ops| - 1]
      case Append(body, now) => before + [StreamMessage(|before|, body, now)]
      case ApplyRetention(_, _) => before
  }

  function ClockAfter(start: int, ops: seq<Op>): int {
    if ops == [] then start else ops[|ops| - 1].now
  }

  predicate ClockAdvances(start: int, ops: seq<Op>) {
    ops == [] ||
    var init := ops[..|ops| - 1];
    ClockAfter(start, init) <= ops[|ops| - 1].now && ClockAdvances(start, init)
  }

  lemma EmptyIsHistory(start: int, maxSegmentSize: nat)
    ensures var st := After(start, maxSegmentSize, []);
      StoreOk(st, ClockAfter(start, [])) && st.nextOffset == 0 && First(st.segments) == 0 && Live(st.segments) == []
  {
  }

  lemma HeldIsFound(st: Store, h: seq<StreamMessage>)
    requires First(st.segments) <= |h| == st.nextOffset && Live(st.segments) == h[First(st.segments)..]
    ensures forall o: nat ::
      At(st, o) == if First(st.segments) <= o < st.nextOffset then Some(h[o]) else None
  {
    hide Live, First;
  }

  /**
   * Over any run of appends and retention passes whose clock never goes back, the store is
   * the full history with a low-water mark: offsets count the appends, and what is held is
   * the history from the first offset on. So a read finds the o-th message ever appended
   * exactly when o lies between the first and the next offset.
   */
  lemma {:induction false} StoreIsHistoryWithLowWaterMark(
    start: int, maxSegmentSize: nat, ops: seq<Op>)
    requires ClockAdvances(start, ops)
    ensures var st, h := After(start, maxSegmentSize, ops), History(ops);
      && StoreOk(st, ClockAfter(start, ops)) && st.nextOffset == |h|
      && First(st.segments) <= |h| && Live(st.segments) == h[First(st.segments)..]
      && forall o: nat :: At(st, o) ==
           if First(st.segments) <= o < st.nextOffset then Some(h[o]) else None
  {
    hide Exec, At, StoreOk, Live, First;
    if ops == [] {
      EmptyIsHistory(start, maxSegmentSize);
    } else {
      var init, op := ops[..|ops| - 1], ops[|ops| - 1];
      StoreIsHistoryWithLowWaterMark(start, maxSegmentSize, init);
      ExecExtends(After(start, maxSegmentSize, init), History(init), ClockAfter(start, init),
                  maxSegmentSize, op);
    }
    HeldIsFound(After(start, maxSegmentSize, ops), History(ops));
  }

  lemma ExecExtends(
    st: Store, h: seq<StreamMessage>, clock: int, maxSegmentSize: nat, op: Op)
    requires StoreOk(st, clock) && clock <= op.now && st.nextOffset == |h|
    requires First(st.segments) <= |h| && Live(st.segments) == h[First(st.segments)..]
    ensures var x := Exec(st, maxSegmentSize, op);
      var g := if op.Append? then h + [StreamMessage(|h|, op.body, op.now)] else h;
      && StoreOk(x, op.now) && x.nextOffset == |g|
      && First(st.segments) <= First(x.segments) <= |g|
      && Live(x.segments) == g[First(x.segments)..]
  {
    match op
    case Append(body, now) =>
      AppendExtends(st, clock, maxSegmentSize, body, now);
    case ApplyRetention(policy, now) =>
      var k := RetentionKeepsNewest(st.segments, st.nextOffset, clock, policy, now);
      LaterClock(st.segments[k..], st.nextOffset, clock, now);
  }

  // The store as the broker uses it.

  lemma {:induction false} Link(segs: seq<StreamSegment>, next: nat, clock: int, k: nat)
    requires Chained(segs, next, clock) && k < |segs|
    ensures SegmentOk(segs[k])
    ensures segs[k].NextOffset() == if k + 1 < |segs| then segs[k + 1].startOffset else next
    ensures segs[k].NextOffset() <= next
  {
    LiveIsConsecutive(segs, next, clock);
    if k > 0 {
      Link(segs[1..], next, clock, k - 1);
    }
  }

  /** A message found in the segment that covers an offset is the one held at that offset. */
  lemma FoundIn(st: Store, clock: int, k: nat, offset: nat)
    requires StoreOk(st, clock) && k < |st.segments| && st.segments[k].startOffset <= offset
    requires k + 1 < |st.segments| ==> offset < st.segments[k + 1].startOffset
    ensures st.segments[k].Get(offset) == At(st, offset)
  {
    Link(st.segments, st.nextOffset, clock, k);
    LiveStretch(st.segments, st.nextOffset, clock, k);
    LiveIsConsecutive(st.segments, st.nextOffset, clock);
    var s, p := st.segments[k], st.segments[k].startOffset - First(st.segments);
    if offset - s.startOffset < |s.messages| {
      assert s.messages[offset - s.startOffset]
          == Live(st.segments)[p..p + |s.messages|][offset - s.startOffset];
    }
  }

  /** The next message of a scan, at offset `pos`, is the one held there. */
  lemma ScanStep(st: Store, clock: int, k: nat, j: nat)
    requires StoreOk(st, clock) && k < |st.segments| && j < |st.segments[k].messages|
    ensures var pos := st.segments[k].startOffset + j;
      && st.segments[k].messages[j].offset == pos
      && At(st, pos) == Some(st.segments[k].messages[j])
  {
    Link(st.segments, st.nextOffset, clock, k);
    LiveStretch(st.segments, st.nextOffset, clock, k);
    var s, p := st.segments[k], st.segments[k].startOffset - First(st.segments);
    assert s.messages[j] == Live(st.segments)[p..p + |s.messages|][j];
  }

  /** A scan up to `pos` has collected everything from `start` on. */
  predicate Scanned(
    live: seq<StreamMessage>, first: nat, start: nat, pos: nat, results: seq<StreamMessage>)
  {
    && first <= pos <= first + |live|
    && if pos <= start then results == []
       else start >= first && results == live[start - first..pos - first]
  }

  lemma ScannedStep(st: Store, start: nat, pos: nat, results: seq<StreamMessage>)
    requires Scanned(Live(st.segments), First(st.segments), start, pos, results)
    requires At(st, pos).Some?
    ensures Scanned(Live(st.segments), First(st.segments), start, pos + 1,
                    if pos < start then results else results + [At(st, pos).value])
    ensures pos < start ==> results == []
    ensures pos >= First(st.segments)
  {
  }

  lemma ScanOne(st: Store, clock: int, start: nat, k: nat, j: nat, results: seq<StreamMessage>)
    requires StoreOk(st, clock) && k < |st.segments| && j < |st.segments[k].messages|
    requires Scanned(Live(st.segments), First(st.segments), start, st.segments[k].startOffset + j, results)
    ensures var pos, msg := st.segments[k].startOffset + j, st.segments[k].messages[j];
      && msg.offset == pos && pos >= First(st.segments) && (pos < start ==> results == [])
      && Scanned(Live(st.segments), First(st.segments), start, pos + 1,
                 if pos < start then results else results + [msg])
  {
    hide *;
    ScanStep(st, clock, k, j);
    ScannedStep(st, start, st.segments[k].startOffset + j, results);
  }

  lemma ScannedSkip(
    live: seq<StreamMessage>, first: nat, start: nat, pos: nat, results: seq<StreamMessage>,
    next: nat)
    requires Scanned(live, first, start, pos, results) && pos <= next <= first + |live|
    requires next == pos || next <= start
    ensures Scanned(live, first, start, next, results)
  {
  }

  lemma ScannedAll(st: Store, from: nat, limit: nat, pos: nat, results: seq<StreamMessage>)
    requires var live, first := Live(st.segments), First(st.segments);
      && Scanned(live, first, if from < first then first else from, pos, results)
      && (pos == first + |live| || (results != [] && |results| >= limit))
    requires limit == 0 || |results| <= limit
    requires limit == 0 ==> |results| <= 1
    ensures results == Window(st, from, limit)
  {
  }

  lemma AppendTarget(st: Store, clock: int, maxSegmentSize: nat, now: int)
    requires StoreOk(st, clock) && clock <= now
    ensures var segs := Roll(st, maxSegmentSize, now);
      segs != [] && segs[|segs| - 1].NextOffset() == st.nextOffset
  {
    PutKeepsLive(st.segments, st.nextOffset, clock, now);
    LaterClock(st.segments, st.nextOffset, clock, now);
    AppendToLast(Roll(st, maxSegmentSize, now), st.nextOffset, now, []);
  }

  class StreamStore {
    var segments: seq<StreamSegment>
    const maxSegmentSize: nat
    var retention: RetentionPolicy
    var nextOffset: nat
    ghost var clock: int

    function View(): Store
      reads this
    {
      Store(segments, nextOffset)
    }

    ghost predicate Valid()
      reads this
    {
      StoreOk(View(), clock)
    }

    constructor (maxSegmentSize: nat, now: int)
      ensures Valid() && View() == NewStore(now) && clock == now
      ensures this.maxSegmentSize == maxSegmentSize && retention == RetentionPolicy(Some(604800), None)
    {
      this.maxSegmentSize := maxSegmentSize;
      segments, nextOffset, clock := [NewSegment(0, now)], 0, now;
      retention := RetentionPolicy(Some(7 * 24 * 3600), None);
    }

    method Append(body: Octets, now: int) returns (offset: nat)
      requires Valid() && clock <= now
      modifies this
      ensures Valid() && clock == now && retention == old(retention)
      ensures View() == Appended(old(View()), maxSegmentSize, body, now)
      ensures offset == old(nextOffset)
    {
      AppendExtends(View(), clock, maxSegmentSize, body, now);
      AppendTarget(View(), clock, maxSegmentSize, now);
      hide StoreOk, First, Live, Put, SegmentOk;
      var needsRoll := |segments| == 0 || segments[|segments| - 1].sizeBytes >= maxSegmentSize;
      if needsRoll {
        segments := Put(segments, NewSegment(nextOffset, now));
      }
      var current := |segments| - 1;
      offset := segments[current].NextOffset();
      segments := segments[current := segments[current].Append(body, now)];
      nextOffset := offset + 1;
      clock := now;
    }

    method Read(offset: nat) returns (msg: Option<StreamMessage>)
      requires Valid()
      ensures msg == At(View(), offset)
    {
      var i := |segments|;
      while i > 0
        invariant 0 <= i <= |segments|
        invariant i < |segments| ==> offset < segments[i].startOffset
      {
        i := i - 1;
        if offset >= segments[i].startOffset {
          FoundIn(View(), clock, i, offset);
          return segments[i].Get(offset);
        }
      }
      msg := None;
    }

    method ReadRange(from: nat, limit: nat) returns (results: seq<StreamMessage>)
      requires Valid()
      ensures results == Window(View(), from, limit)
    {
      ghost var live, first := Live(segments), First(segments);
      LiveIsConsecutive(segments, nextOffset, clock);
      results := [];
      var current, i, full := from, 0, false;
      ghost var pos: nat := first;
      ghost var start := if from < first then first else from;
      while i < |segments| && !full
        invariant 0 <= i <= |segments|
        invariant !full ==> pos == if i < |segments| then segments[i].startOffset else nextOffset
        invariant Scanned(live, first, start, pos, results)
        invariant current == if results == [] then from else pos
        invariant full <==> results != [] && |results| >= limit
        invariant limit == 0 || |results| <= limit
        invariant limit == 0 ==> |results| <= 1
      {
        hide Chained, Live, First, Scanned, SegmentOk;
        Link(segments, nextOffset, clock, i);
        if segments[i].NextOffset() > current {
          results, current, full := ScanSegment(i, current, limit, results, start);
          pos := if full then current else segments[i].NextOffset();
        } else {
          ScannedSkip(live, first, start, pos, results, segments[i].NextOffset());
          pos := segments[i].NextOffset();
        }
        i := i + 1;
      }
      ScannedAll(View(), from, limit, pos, results);
    }

    /** The inner loop: one segment's messages, until the limit is reached. */
    method ScanSegment(
      i: nat, from: nat, limit: nat, before: seq<StreamMessage>, ghost start: nat)
      returns (results: seq<StreamMessage>, current: nat, full: bool)
      requires Valid() && i < |segments|
      requires Scanned(Live(segments), First(segments), start, segments[i].startOffset, before)
      requires before == [] || (from == segments[i].startOffset && |before| < limit)
      requires before == [] ==> start == if from < First(segments) then First(segments) else from
      ensures full <==> results != [] && |results| >= limit
      ensures limit == 0 || |results| <= limit
      ensures limit == 0 ==> |results| <= 1
      ensures results == [] ==> current == from
      ensures results != [] && !full ==> current == segments[i].NextOffset()
      ensures Scanned(Live(segments), First(segments), start,
                      if full then current else segments[i].NextOffset(), results)
    {
      hide Chained, Live, SegmentOk, Scanned, StoreOk, First;
      results, current, full := before, from, false;
      var j := 0;
      while j < |segments[i].messages|
        invariant 0 <= j <= |segments[i].messages|
        invariant Scanned(Live(segments), First(segments), start, segments[i].startOffset + j, results)
        invariant current == if results == [] then from else segments[i].startOffset + j
        invariant !full && (results == [] || |results| < limit)
        invariant results == [] ==> before == []
      {
        ScanOne(View(), clock, start, i, j, results);
        var msg := segments[i].messages[j];
        if msg.offset >= current {
          results := results + [msg];
          current := msg.offset + 1;
          if |results| >= limit {
            full := true;
            return;
          }
        }
        j := j + 1;
      }
    }

    method TotalBytesHeld() returns (total: nat)
      requires Valid()
      ensures total == BytesOf(Live(segments))
    {
      total := 0;
      var i := 0;
      while i < |segments|
        invariant 0 <= i <= |segments| && total + TotalBytes(segments[i..]) == TotalBytes(segments)
      {
        total := total + segments[i].sizeBytes;
        assert segments[i..][1..] == segments[i + 1..];
        i := i + 1;
      }
      LiveIsConsecutive(segments, nextOffset, clock);
    }

    method Retain(now: int)
      requires Valid() && clock <= now
      modifies this
      ensures Valid() && clock == now && retention == old(retention)
      ensures nextOffset == old(nextOffset)
      ensures segments == Retained(old(segments), retention, now)
    {
      ghost var k := RetentionKeepsNewest(segments, nextOffset, clock, retention, now);
      LaterClock(segments[k..], nextOffset, clock, now);
      hide Chained, Shrink, Evict, Expired, Live, First, TotalBytes, BytesOf;
      if retention.maxAge.Some? {
        EvictExpired(retention.maxAge.value, now);
      }
      if retention.maxBytes.Some? {
        EvictLargest(retention.maxBytes.value);
      }
      clock := now;
    }

    method EvictExpired(maxAge: int, now: int)
      modifies this`segments
      ensures segments == Evict(old(segments), Expired(old(segments), maxAge, now))
    {
      ghost var before := segments;
      var expired, i := [], 0;
      while i < |segments|
        invariant 0 <= i <= |segments| && segments == before
        invariant expired + Expired(segments[i..], maxAge, now) == Expired(segments, maxAge, now)
      {
        if now - segments[i].createdAt > maxAge {
          expired := expired + [segments[i].startOffset];
        }
        assert segments[i..][1..] == segments[i + 1..];
        i := i + 1;
      }
      assert segments[i..] == [] && expired + [] == expired;
      var j := 0;
      assert expired[0..] == expired;
      while j < |expired|
        invariant 0 <= j <= |expired|
        invariant Evict(segments, expired[j..]) == Evict(before, expired)
      {
        if |segments| > 1 {
          segments := Without(segments, expired[j]);
        }
        assert expired[j..][1..] == expired[j + 1..];
        j := j + 1;
      }
    }

    method EvictLargest(maxBytes: nat)
      modifies this`segments
      ensures segments == Shrink(old(segments), maxBytes)
    {
      while TotalBytes(segments) > maxBytes && |segments| > 1
        invariant Shrink(segments, maxBytes) == Shrink(old(segments), maxBytes)
        decreases |segments|
      {
        segments := segments[1..];
      }
    }
  }
}
