// Segment files: appending with rotation, reading everything back, and reading one message
// through the locator that its append returned.
module Segments {
  import opened Bytes
  import opened Ordered
  import opened Readers
  import opened WalFormat
  import opened WalRecords

  datatype Locator = Locator(segment: int, offset: nat, length: u32)

  /**
   * The segment files by id, the id of the one that is appended to, and how large the writer
   * counts it to be.
   */
  datatype Disk = Disk(files: map<int, Octets>, active: int, size: nat) {
    ghost predicate Valid() {
      active in files && forall id <- files :: id <= active
    }

    /** The counter is the length of the file, as it is right after opening it. */
    predicate InSync() {
      active in files && size == |files[active]|
    }
  }

  const EMPTY_DISK: Disk := Disk(map[1 := []], 1, 0)

  /** Rotation and offsets follow the counter, which takes each frame's length modulo 2^32. */
  function AppendTo(crc: Checksum, limit: nat, d: Disk, e: Entry): (r: (Disk, Locator))
    requires d.active in d.files
    ensures r.0.active in r.0.files
  {
    var frame := Frame(crc, e);
    var length := |frame| % TWO_32;
    if d.size + |frame| > limit then
      var id := d.active + 1;
      (Disk(d.files[id := frame], id, length), Locator(id, 0, length))
    else
      (Disk(d.files[d.active := d.files[d.active] + frame], d.active, d.size + length),
       Locator(d.active, d.size, length))
  }

  function AppendAll(crc: Checksum, limit: nat, d: Disk, es: seq<Entry>): (after: Disk)
    requires d.active in d.files
    ensures after.active in after.files
    decreases |es|
  {
    if es == [] then d else AppendAll(crc, limit, AppendTo(crc, limit, d, es[0]).0, es[1..])
  }

  lemma {:induction false} AppendAllSnoc(
    crc: Checksum, limit: nat, d: Disk, es: seq<Entry>, e: Entry)
    requires d.active in d.files
    ensures AppendAll(crc, limit, d, es + [e])
         == AppendTo(crc, limit, AppendAll(crc, limit, d, es), e).0
    decreases |es|
  {
    if es == [] {
      assert ([e])[1..] == [];
    } else {
      assert (es + [e])[1..] == es[1..] + [e];
      AppendAllSnoc(crc, limit, AppendTo(crc, limit, d, es[0]).0, es[1..], e);
    }
  }

  // Reading everything back.

  function ScanFiles(crc: Checksum, files: map<int, Octets>, ids: seq<int>): seq<Entry>
    requires forall i :: 0 <= i < |ids| ==> ids[i] in files
  {
    if ids == [] then [] else Scan(crc, files[ids[0]]) + ScanFiles(crc, files, ids[1..])
  }

  function ReadAll(crc: Checksum, d: Disk): seq<Entry> {
    ScanFiles(crc, d.files, Ascending(d.files.Keys))
  }

  lemma ScanFilesStep(crc: Checksum, files: map<int, Octets>, ids: seq<int>, i: nat, before: seq<Entry>)
    requires i < |ids| && forall j :: 0 <= j < |ids| ==> ids[j] in files
    ensures before + ScanFiles(crc, files, ids[i..])
         == before + Scan(crc, files[ids[i]]) + ScanFiles(crc, files, ids[i + 1..])
  {
    hide Scan;
    assert ids[i..][1..] == ids[i + 1..];
  }

  /** Only entries that fit their length field are ever read back. */
  lemma {:induction false} ScanFilesSized(crc: Checksum, files: map<int, Octets>, ids: seq<int>)
    requires forall i :: 0 <= i < |ids| ==> ids[i] in files
    ensures AllSized(ScanFiles(crc, files, ids))
  {
    if ids != [] {
      ScanIsFramed(crc, files[ids[0]]);
      ScanFilesSized(crc, files, ids[1..]);
    }
  }

  lemma ReadAllSized(crc: Checksum, d: Disk)
    ensures AllSized(ReadAll(crc, d))
  {
    ScanFilesSized(crc, d.files, Ascending(d.files.Keys));
  }

  // A disk as the list of entry groups its files hold.

  ghost predicate Stores(crc: Checksum, d: Disk, groups: seq<seq<Entry>>) {
    && groups != [] && d.active == |groups|
    && d.files.Keys == IdRange(1, |groups|)
    && (forall i :: 0 <= i < |groups| ==> AllSized(groups[i]))
    && (forall i :: 0 <= i < |groups| ==> d.files[i + 1] == Frames(crc, groups[i]))
  }

  function IdRange(lo: int, hi: int): (ids: set<int>)
    ensures forall id :: id in ids <==> lo <= id <= hi
    decreases hi + 1 - lo
  {
    if lo > hi then {} else {lo} + IdRange(lo + 1, hi)
  }

  function Flatten<T>(groups: seq<seq<T>>): seq<T> {
    if groups == [] then [] else groups[0] + Flatten(groups[1..])
  }

  lemma {:induction false} FlattenSnoc<T>(groups: seq<seq<T>>, last: seq<T>)
    ensures Flatten(groups + [last]) == Flatten(groups) + last
  {
    if groups == [] {
      assert [last][1..] == [];
    } else {
      FlattenSnoc(groups[1..], last);
      assert (groups + [last])[1..] == groups[1..] + [last];
    }
  }

  /** The groups after one append: it starts a group of its own or joins the last group. */
  function Place(
    crc: Checksum, limit: nat, size: nat, groups: seq<seq<Entry>>, e: Entry): (after: seq<seq<Entry>>)
    requires groups != []
    ensures after != []
  {
    var n := |groups| - 1;
    if size + |Frame(crc, e)| > limit then groups + [[e]]
    else groups[..n] + [groups[n] + [e]]
  }

  lemma SplitLast<T>(s: seq<T>) returns (front: seq<T>, last: T)
    requires s != []
    ensures s == front + [last]
  {
    front, last := s[..|s| - 1], s[|s| - 1];
  }

  lemma PlaceAppends(crc: Checksum, limit: nat, size: nat, groups: seq<seq<Entry>>, e: Entry)
    requires groups != []
    ensures Flatten(Place(crc, limit, size, groups, e)) == Flatten(groups) + [e]
  {
    hide *;
    var front, last := SplitLast(groups);
    PlaceOnSplit(crc, limit, size, front, last, e);
  }

  lemma PlaceOnSplit(
    crc: Checksum, limit: nat, size: nat, front: seq<seq<Entry>>, last: seq<Entry>, e: Entry)
    ensures Flatten(Place(crc, limit, size, front + [last], e)) == Flatten(front + [last]) + [e]
  {
    hide Frame, Flatten;
    assert (front + [last])[..|front|] == front;
    FlattenSnoc(front + [last], [e]);
    FlattenSnoc(front, last);
    FlattenSnoc(front, last + [e]);
    assert Flatten(front) + (last + [e]) == Flatten(front) + last + [e];
  }

  lemma AppendStoresPlaced(
    crc: Checksum, limit: nat, d: Disk, groups: seq<seq<Entry>>, e: Entry)
    requires Stores(crc, d, groups) && Sized(e)
    ensures Stores(crc, AppendTo(crc, limit, d, e).0, Place(crc, limit, d.size, groups, e))
  {
    hide Frame, Frames;
    var n := |groups| - 1;
    assert d.files[n + 1] == Frames(crc, groups[n]);
    FramesSingle(crc, e);
    FramesAppend(crc, groups[n], [e]);
  }

  lemma HeadJoins<T>(a: seq<T>, s: seq<T>)
    requires s != []
    ensures a + [s[0]] + s[1..] == a + s
  {
  }

  lemma {:induction false} AppendAllKeepsGroups(
    crc: Checksum, limit: nat, d: Disk, groups: seq<seq<Entry>>, es: seq<Entry>)
    returns (after: seq<seq<Entry>>)
    requires d.active in d.files && groups != [] && Stores(crc, d, groups) && AllSized(es)
    ensures after != [] && Stores(crc, AppendAll(crc, limit, d, es), after)
    ensures Flatten(after) == Flatten(groups) + es
    decreases |es|
  {
    hide AppendTo, Stores, Flatten, Frame, Frames, Place, Sized;
    if es == [] {
      after := groups;
      assert Flatten(groups) + es == Flatten(groups);
    } else {
      var next := Place(crc, limit, d.size, groups, es[0]);
      AppendStoresPlaced(crc, limit, d, groups, es[0]);
      PlaceAppends(crc, limit, d.size, groups, es[0]);
      after := AppendAllKeepsGroups(crc, limit, AppendTo(crc, limit, d, es[0]).0, next, es[1..]);
      HeadJoins(Flatten(groups), es);
    }
  }

  lemma RangeAscends(lo: int, hi: int)
    requires lo <= hi
    ensures Ascending(IdRange(lo, hi)) == [lo] + Ascending(IdRange(lo + 1, hi))
  {
    var ids := IdRange(lo, hi);
    assert lo in ids && Smallest(ids) == lo;
    assert ids - {lo} == IdRange(lo + 1, hi);
  }

  lemma {:induction false} ScanFilesFrom(
    crc: Checksum, files: map<int, Octets>, groups: seq<seq<Entry>>, from: nat)
    requires 1 <= from <= |groups| + 1
    requires forall id :: from <= id <= |groups| ==>
               id in files && Scan(crc, files[id]) == groups[id - 1]
    ensures var ids := Ascending(IdRange(from, |groups|));
      && (forall i :: 0 <= i < |ids| ==> ids[i] in files)
      && ScanFiles(crc, files, ids) == Flatten(groups[from - 1..])
    decreases |groups| - from + 1
  {
    hide Scan;
    if from <= |groups| {
      RangeAscends(from, |groups|);
      hide Ascending, IdRange;
      ScanFilesFrom(crc, files, groups, from + 1);
      assert from in files;
    }
  }

  lemma ReadAllGroups(crc: Checksum, d: Disk, groups: seq<seq<Entry>>)
    requires d.files.Keys == IdRange(1, |groups|)
    requires forall id :: 1 <= id <= |groups| ==> Scan(crc, d.files[id]) == groups[id - 1]
    ensures ReadAll(crc, d) == Flatten(groups)
  {
    hide Scan, Flatten;
    ScanFilesFrom(crc, d.files, groups, 1);
    assert groups[0..] == groups;
  }

  lemma StoredGroup(crc: Checksum, d: Disk, groups: seq<seq<Entry>>, id: int)
    requires Stores(crc, d, groups) && 1 <= id <= |groups|
    ensures id in d.files && AllSized(groups[id - 1]) && d.files[id] == Frames(crc, groups[id - 1])
    ensures Scan(crc, d.files[id]) == groups[id - 1]
  {
    hide Scan, Frames, AllSized;
    assert d.files[(id - 1) + 1] == Frames(crc, groups[id - 1]);
    ScanOfFrames(crc, groups[id - 1]);
  }

  /** The groups of entries in the segments of a log that began empty. */
  lemma GroupsOf(crc: Checksum, limit: nat, es: seq<Entry>) returns (groups: seq<seq<Entry>>)
    requires AllSized(es)
    ensures groups != [] && Stores(crc, AppendAll(crc, limit, EMPTY_DISK, es), groups)
    ensures Flatten(groups) == es
  {
    hide Sized, Frame, AppendAll;
    groups := [[]];
    assert Stores(crc, EMPTY_DISK, groups) && Flatten(groups) == [];
    hide Stores, Flatten, Frames;
    groups := AppendAllKeepsGroups(crc, limit, EMPTY_DISK, groups, es);
    assert [] + es == es;
  }

  /**
   * Starting from an empty log, for every sequence of appends and every size limit, reading
   * all segments returns exactly the appended entries in order.
   */
  lemma SegmentationIsTransparent(crc: Checksum, limit: nat, es: seq<Entry>)
    requires AllSized(es)
    ensures ReadAll(crc, AppendAll(crc, limit, EMPTY_DISK, es)) == es
  {
    hide Scan, Frames, AppendAll, Flatten, ReadAll, AllSized;
    var d := AppendAll(crc, limit, EMPTY_DISK, es);
    var groups := GroupsOf(crc, limit, es);
    forall id | 1 <= id <= |groups| ensures Scan(crc, d.files[id]) == groups[id - 1] {
      StoredGroup(crc, d, groups, id);
    }
    ReadAllGroups(crc, d, groups);
  }

  // A crash in the middle of a write.

  /** The segments before the active one. */
  function ClosedOnly(d: Disk): Disk {
    d.(files := d.files - {d.active})
  }

  /** The disk when only `cut` bytes of the active file were written. */
  function CutActive(d: Disk, cut: nat): Disk
    requires d.active in d.files && cut <= |d.files[d.active]|
  {
    d.(files := d.files[d.active := d.files[d.active][..cut]])
  }

  /**
   * Whatever the appends and the limit, cutting the active file at any byte leaves a prefix
   * of the entries: the m entries of the closed segments, and of the others exactly those
   * that lie wholly before the cut.
   */
  lemma CrashLeavesPrefix(crc: Checksum, limit: nat, es: seq<Entry>, cut: nat)
    returns (m: nat, n: nat)
    requires AllSized(es)
    requires var d := AppendAll(crc, limit, EMPTY_DISK, es); cut <= |d.files[d.active]|
    ensures var d := AppendAll(crc, limit, EMPTY_DISK, es);
      && m <= n <= |es|
      && ReadAll(crc, ClosedOnly(d)) == es[..m] && ReadAll(crc, CutActive(d, cut)) == es[..n]
      && |Frames(crc, es[m..n])| <= cut
      && (n < |es| ==> cut < |Frames(crc, es[m..n + 1])|)
  {
    hide AppendAll, Scan, Frames, Flatten, ReadAll, AllSized, ClosedOnly, CutActive, Stores;
    var d := AppendAll(crc, limit, EMPTY_DISK, es);
    var groups := GroupsOf(crc, limit, es);
    var closed, last := SplitLast(groups);
    CrashOnGroups(crc, d, closed, last, cut);
    TornTail(crc, last, cut);
    var r := Scan(crc, d.files[d.active][..cut]);
    m, n := |Flatten(closed)|, |Flatten(closed)| + |r|;
    Pieces(es, Flatten(closed), last, r);
  }

  lemma Pieces<T>(all: seq<T>, a: seq<T>, b: seq<T>, r: seq<T>)
    requires all == a + b && r <= b
    ensures all[..|a|] == a && all[..|a| + |r|] == a + r && all[|a|..|a| + |r|] == r
    ensures |a| + |r| < |all| ==> |r| < |b| && all[|a|..|a| + |r| + 1] == b[..|r| + 1]
    ensures |a| + |r| <= |all|
  {
  }

  lemma CrashOnGroups(
    crc: Checksum, d: Disk, closed: seq<seq<Entry>>, last: seq<Entry>, cut: nat)
    requires Stores(crc, d, closed + [last])
    requires d.active in d.files && cut <= |d.files[d.active]|
    ensures Flatten(closed + [last]) == Flatten(closed) + last
    ensures AllSized(last) && d.files[d.active] == Frames(crc, last)
    ensures ReadAll(crc, ClosedOnly(d)) == Flatten(closed)
    ensures ReadAll(crc, CutActive(d, cut)) == Flatten(closed) + Scan(crc, d.files[d.active][..cut])
  {
    StoredGroup(crc, d, closed + [last], |closed| + 1);
    ClosedReads(crc, d, closed, last);
    CutReads(crc, d, closed, last, cut);
    hide *;
    FlattenSnoc(closed, last);
    assert (closed + [last])[|closed|] == last;
  }

  lemma ClosedReads(crc: Checksum, d: Disk, closed: seq<seq<Entry>>, last: seq<Entry>)
    requires Stores(crc, d, closed + [last])
    ensures ReadAll(crc, ClosedOnly(d)) == Flatten(closed)
  {
    var c := ClosedOnly(d);
    forall id | 1 <= id <= |closed| ensures Scan(crc, c.files[id]) == closed[id - 1] {
      StoredGroup(crc, d, closed + [last], id);
    }
    assert c.files.Keys == IdRange(1, |closed|);
    hide *;
    ReadAllGroups(crc, c, closed);
  }

  lemma CutReads(
    crc: Checksum, d: Disk, closed: seq<seq<Entry>>, last: seq<Entry>, cut: nat)
    requires Stores(crc, d, closed + [last])
    requires d.active in d.files && cut <= |d.files[d.active]|
    ensures ReadAll(crc, CutActive(d, cut)) == Flatten(closed) + Scan(crc, d.files[d.active][..cut])
  {
    hide Scan, Frames, AllSized, IdRange, Flatten, ReadAll;
    var c, r := CutActive(d, cut), Scan(crc, d.files[d.active][..cut]);
    var groups := closed + [r];
    forall id | 1 <= id <= |groups| ensures id in c.files && Scan(crc, c.files[id]) == groups[id - 1] {
      StoredGroup(crc, d, closed + [last], id);
    }
    assert c.files.Keys == d.files.Keys;
    hide Stores, CutActive;
    ReadAllGroups(crc, c, groups);
    FlattenSnoc(closed, r);
  }

  // The size counter.

  /** The frame's length, not only the length in it, fits 32 bits. */
  predicate FrameFits(e: Entry) {
    WAL_HEADER_SIZE + |e.data| < TWO_32
  }

  predicate AllFit(es: seq<Entry>) {
    forall i :: 0 <= i < |es| ==> FrameFits(es[i])
  }

  predicate AllButLastFit(es: seq<Entry>) {
    forall i :: 0 <= i < |es| - 1 ==> FrameFits(es[i])
  }

  /** What the writer counts for entries that it put into one file. */
  function Counter(crc: Checksum, es: seq<Entry>): nat {
    if es == [] then 0
    else Counter(crc, es[..|es| - 1]) + |Frame(crc, es[|es| - 1])| % TWO_32
  }

  /** The entries of the segment that is appended to after these. */
  function Current(crc: Checksum, limit: nat, es: seq<Entry>): seq<Entry>
    decreases |es|
  {
    if es == [] then []
    else
      var cur, e := Current(crc, limit, es[..|es| - 1]), es[|es| - 1];
      if Rotates(crc, limit, cur, e) then [e] else cur + [e]
  }

  predicate Rotates(crc: Checksum, limit: nat, cur: seq<Entry>, e: Entry) {
    Counter(crc, cur) + |Frame(crc, e)| > limit
  }

  lemma AppendLast(crc: Checksum, limit: nat, es: seq<Entry>)
    requires es != []
    ensures AppendAll(crc, limit, EMPTY_DISK, es)
         == AppendTo(crc, limit, AppendAll(crc, limit, EMPTY_DISK, es[..|es| - 1]), es[|es| - 1]).0
  {
    hide AppendAll, AppendTo;
    AppendAllSnoc(crc, limit, EMPTY_DISK, es[..|es| - 1], es[|es| - 1]);
    assert es == es[..|es| - 1] + [es[|es| - 1]];
  }

  lemma OneMore(crc: Checksum, cur: seq<Entry>, e: Entry)
    ensures Counter(crc, cur + [e]) == Counter(crc, cur) + |Frame(crc, e)| % TWO_32
    ensures Frames(crc, cur + [e]) == Frames(crc, cur) + Frame(crc, e)
  {
    assert (cur + [e])[..|cur|] == cur;
    FramesAppend(crc, cur, [e]);
    FramesSingle(crc, e);
    hide Frame, Frames;
  }

  lemma Alone(crc: Checksum, e: Entry)
    ensures Counter(crc, [e]) == |Frame(crc, e)| % TWO_32 && Counter(crc, []) == 0
    ensures Frames(crc, [e]) == Frame(crc, e) && Frames(crc, []) == []
  {
    hide Frame;
    FramesSingle(crc, e);
    assert [e][..0] == [];
  }

  lemma AppendKeepsCurrent(crc: Checksum, limit: nat, d: Disk, cur: seq<Entry>, e: Entry)
    requires d.Valid() && d.files[d.active] == Frames(crc, cur) && d.size == Counter(crc, cur)
    ensures var d1, next := AppendTo(crc, limit, d, e).0, if Rotates(crc, limit, cur, e) then [e] else cur + [e];
      d1.Valid() && d1.files[d1.active] == Frames(crc, next) && d1.size == Counter(crc, next)
  {
    hide Frame, Frames, Counter;
    OneMore(crc, cur, e);
    Alone(crc, e);
  }

  /** The active file holds the current entries, and its size is counted from them. */
  lemma {:induction false} ActiveHoldsCurrent(crc: Checksum, limit: nat, es: seq<Entry>)
    ensures var d, cur := AppendAll(crc, limit, EMPTY_DISK, es), Current(crc, limit, es);
      d.Valid() && d.files[d.active] == Frames(crc, cur) && d.size == Counter(crc, cur)
    decreases |es|
  {
    if es != [] {
      hide Frame, Frames, Counter, AppendAll, AppendTo, Rotates;
      var init, e := es[..|es| - 1], es[|es| - 1];
      ActiveHoldsCurrent(crc, limit, init);
      AppendLast(crc, limit, es);
      AppendKeepsCurrent(crc, limit, AppendAll(crc, limit, EMPTY_DISK, init), Current(crc, limit, init), e);
    }
  }

  /** The counter is the length of the file exactly when every frame in it fits. */
  lemma {:induction false} CounterFallsBehind(crc: Checksum, es: seq<Entry>)
    ensures Counter(crc, es) <= |Frames(crc, es)|
    ensures AllFit(es) <==> Counter(crc, es) == |Frames(crc, es)|
  {
    if es != [] {
      CounterFallsBehind(crc, es[..|es| - 1]);
      FramesSnoc(crc, es);
      LengthCut(crc, es[|es| - 1]);
      FitSnoc(es);
      hide Frame, Frames, AllFit, AllButLastFit, FrameFits;
    }
  }

  lemma FitSnoc(es: seq<Entry>)
    requires es != []
    ensures AllFit(es) <==> AllFit(es[..|es| - 1]) && FrameFits(es[|es| - 1])
    ensures AllButLastFit(es) <==> AllFit(es[..|es| - 1])
  {
    hide FrameFits;
    var init := es[..|es| - 1];
    assert forall i :: 0 <= i < |init| ==> init[i] == es[i];
    assert AllFit(init) && FrameFits(es[|es| - 1]) ==> AllFit(es);
    assert AllFit(es) ==> forall i :: 0 <= i < |init| ==> FrameFits(es[i]);
    assert AllButLastFit(es) ==> forall i :: 0 <= i < |init| ==> FrameFits(init[i]);
  }

  lemma LengthCut(crc: Checksum, e: Entry)
    ensures var n := |Frame(crc, e)|;
      WAL_HEADER_SIZE <= n && n % TWO_32 <= n && (FrameFits(e) <==> n % TWO_32 == n)
  {
  }

  lemma FramesSnoc(crc: Checksum, es: seq<Entry>)
    requires es != []
    ensures Frames(crc, es) == Frames(crc, es[..|es| - 1]) + Frame(crc, es[|es| - 1])
  {
    hide *;
    OneMore(crc, es[..|es| - 1], es[|es| - 1]);
    assert es == es[..|es| - 1] + [es[|es| - 1]];
  }

  lemma PartFits(es: seq<Entry>, init: seq<Entry>, e: Entry, cur: seq<Entry>)
    requires es != [] && init == es[..|es| - 1] && e == es[|es| - 1]
    ensures AllFit(es) ==> AllFit(init) && (AllFit(cur) ==> AllFit(cur + [e])) && AllFit([e])
    ensures AllSized(es) ==> AllSized(init) && (AllSized(cur) ==> AllSized(cur + [e])) && AllSized([e])
  {
    hide FrameFits, Sized;
    assert forall i :: 0 <= i < |init| ==> init[i] == es[i];
  }

  lemma {:induction false} CurrentIsPart(crc: Checksum, limit: nat, es: seq<Entry>)
    ensures AllFit(es) ==> AllFit(Current(crc, limit, es))
    ensures AllSized(es) ==> AllSized(Current(crc, limit, es))
    decreases |es|
  {
    if es != [] {
      hide Rotates, FrameFits, Sized, AllFit, AllSized;
      var init, e := es[..|es| - 1], es[|es| - 1];
      CurrentIsPart(crc, limit, init);
      PartFits(es, init, e, Current(crc, limit, init));
    }
  }

  // Reading one message through its locator.

  datatype PayloadError =
    NoSuchSegment | Truncated | InvalidLength | ChecksumMismatch | NotAnEnqueue

  datatype PayloadResult = Message(headers: Octets, body: Octets) | Failed(error: PayloadError)

  /** Reads the enqueue entry at the start of `s`. */
  function ReadPayloadAt(crc: Checksum, s: Octets): PayloadResult {
    if |s| < WAL_HEADER_SIZE then Failed(Truncated)
    else
      var total, expected, tag := FromBE32(s[..4]), FromBE32(s[4..8]), s[8];
      if total < 1 then Failed(InvalidLength)
      else if |s| < 8 + total then Failed(Truncated)
      else
        var payload := s[9..8 + total];
        if crc([tag] + payload) != expected then Failed(ChecksumMismatch)
        else if tag != Enqueue.Tag() then Failed(NotAnEnqueue)
        else match HeadersAndBody(payload)
          case Err(_) => Failed(Truncated)
          case Ok(fields, _) => Message(fields.0, fields.1)
  }

  function HeadersAndBody(payload: Octets): Parsed<(Octets, Octets)> {
    var (_, s) :- TakeBlob16(payload);
    var (_, s) :- TakeU64(s);
    var (_, s) :- TakeBlob16(s);
    var (_, s) :- TakeBlob16(s);
    var (headers, s) :- TakeBlob32(s);
    var (body, s) :- TakeBlob32(s);
    Ok((headers, body), s)
  }

  function ReadPayload(crc: Checksum, d: Disk, loc: Locator): PayloadResult {
    if loc.segment !in d.files then Failed(NoSuchSegment)
    else if |d.files[loc.segment]| < loc.offset then Failed(Truncated)
    else ReadPayloadAt(crc, d.files[loc.segment][loc.offset..])
  }

  lemma HeadersAndBodyOfEnqueue(r: Record)
    requires r.EnqueueRecord? && Fits(r)
    ensures HeadersAndBody(Encode(r)) == Ok((r.headers, r.body), [])
  {
    hide Str16, Blob32, BE64, FromBE64, TakeBlob16, TakeBlob32, TakeU64;
    var s5 := Blob32(r.headers) + Blob32(r.body);
    var s4 := Str16(r.routingKey) + s5;
    var s3 := Str16(r.exchange) + s4;
    TakeBlob16Append(r.queue, BE64(r.msgId) + s3);
    TakeU64Append(r.msgId, s3);
    TakeBlob16Append(r.exchange, s4);
    TakeBlob16Append(r.routingKey, s5);
    TakeBlob32Append(r.headers, Blob32(r.body));
    TakeBlob32Append(r.body, []);
    assert Blob32(r.body) + [] == Blob32(r.body);
  }

  /** Appends never change bytes that are already in a file. */
  lemma {:induction false} AppendAllGrows(crc: Checksum, limit: nat, d: Disk, es: seq<Entry>)
    requires d.Valid()
    ensures var after := AppendAll(crc, limit, d, es);
      after.Valid() && forall id <- d.files :: id in after.files && d.files[id] <= after.files[id]
    decreases |es|
  {
    if es != [] {
      AppendAllGrows(crc, limit, AppendTo(crc, limit, d, es[0]).0, es[1..]);
    }
  }

  /**
   * The locator of an enqueued message yields that message's headers and body after any
   * later appends and rotations, when the counter is the length of the active file or the
   * append starts a new file.
   */
  lemma LocatorKeepsYielding(crc: Checksum, limit: nat, d: Disk, r: Record, later: seq<Entry>)
    requires d.Valid() && r.EnqueueRecord? && Fits(r) && Sized(Entry(Enqueue, Encode(r)))
    requires d.InSync() || d.size + |Frame(crc, Entry(Enqueue, Encode(r)))| > limit
    ensures var (d1, loc) := AppendTo(crc, limit, d, Entry(Enqueue, Encode(r)));
      ReadPayload(crc, AppendAll(crc, limit, d1, later), loc) == Message(r.headers, r.body)
  {
    hide Encode, Fits;
    var e := Entry(Enqueue, Encode(r));
    var (d1, loc) := AppendTo(crc, limit, d, e);
    AppendAllGrows(crc, limit, d1, later);
    var file := AppendAll(crc, limit, d1, later).files[loc.segment];
    assert d1.files[loc.segment][loc.offset..] == Frame(crc, e);
    assert Frame(crc, e) <= file[loc.offset..];
    HeadersAndBodyOfEnqueue(r);
    FrameYieldsPayload(crc, e, file[loc.offset..]);
  }

  /**
   * So over a whole run, whatever comes later, when every frame before it in its segment fits
   * 32 bits or it starts a segment.
   */
  lemma LocatorsKeepYielding(
    crc: Checksum, limit: nat, before: seq<Entry>, r: Record, later: seq<Entry>)
    requires var cur := Current(crc, limit, before);
      AllFit(cur) || Rotates(crc, limit, cur, Entry(Enqueue, Encode(r)))
    requires r.EnqueueRecord? && Fits(r) && Sized(Entry(Enqueue, Encode(r)))
    ensures var d := AppendAll(crc, limit, EMPTY_DISK, before);
      var (d1, loc) := AppendTo(crc, limit, d, Entry(Enqueue, Encode(r)));
      ReadPayload(crc, AppendAll(crc, limit, d1, later), loc) == Message(r.headers, r.body)
  {
    ActiveHoldsCurrent(crc, limit, before);
    CounterFallsBehind(crc, Current(crc, limit, before));
    hide AppendAll, AppendTo, Encode, Fits, Current, Counter, Frames, Frame, AllFit;
    LocatorKeepsYielding(crc, limit, AppendAll(crc, limit, EMPTY_DISK, before), r, later);
  }

  // When the counter is right.

  /** A segment is larger than the limit only when it holds one entry. */
  ghost predicate FileOk(crc: Checksum, limit: nat, file: Octets) {
    |file| > limit ==> |Scan(crc, file)| == 1
  }

  ghost predicate Within(crc: Checksum, limit: nat, files: map<int, Octets>) {
    forall id <- files :: FileOk(crc, limit, files[id])
  }

  ghost predicate LimitKept(crc: Checksum, limit: nat, es: seq<Entry>) {
    Within(crc, limit, AppendAll(crc, limit, EMPTY_DISK, es).files)
  }

  /** The locator of the k-th append is where its frame was written. */
  ghost predicate PointsAtFrame(crc: Checksum, limit: nat, es: seq<Entry>, k: nat)
    requires k < |es|
  {
    var d := AppendAll(crc, limit, EMPTY_DISK, es[..k]);
    var (d1, loc) := AppendTo(crc, limit, d, es[k]);
    loc.segment == d1.active && loc.offset + |Frame(crc, es[k])| == |d1.files[d1.active]|
  }

  /** The k-th locator is right exactly when the frames before it in its segment fit, or it starts one. */
  lemma PointsAtFrameIff(crc: Checksum, limit: nat, es: seq<Entry>, k: nat)
    requires k < |es|
    ensures PointsAtFrame(crc, limit, es, k) <==>
      var cur := Current(crc, limit, es[..k]);
      AllFit(cur) || Rotates(crc, limit, cur, es[k])
  {
    ActiveHoldsCurrent(crc, limit, es[..k]);
    CounterFallsBehind(crc, Current(crc, limit, es[..k]));
    hide AppendAll, Current, Counter, Frame, Frames, AllFit;
  }

  /** An entry that joins others leaves the segment within the limit. */
  predicate Joins(crc: Checksum, limit: nat, cur: seq<Entry>, e: Entry) {
    cur == [] || Rotates(crc, limit, cur, e) || |Frames(crc, cur)| + |Frame(crc, e)| <= limit
  }

  lemma ReplaceFile(crc: Checksum, limit: nat, files: map<int, Octets>, id: int, file: Octets)
    ensures Within(crc, limit, files[id := file]) ==> FileOk(crc, limit, file)
    ensures (id in files ==> FileOk(crc, limit, files[id])) && FileOk(crc, limit, file) ==>
              (Within(crc, limit, files[id := file]) <==> Within(crc, limit, files))
  {
    hide FileOk;
    var after := files[id := file];
    assert after[id] == file;
    assert forall other <- files :: other != id ==> other in after && after[other] == files[other];
  }

  lemma FilesOk(crc: Checksum, limit: nat, cur: seq<Entry>, e: Entry)
    requires AllSized(cur) && Sized(e)
    ensures FileOk(crc, limit, Frame(crc, e))
    ensures cur == [] ==> FileOk(crc, limit, Frames(crc, cur)) && Frames(crc, cur + [e]) == Frame(crc, e)
    ensures cur != [] ==>
              var total := |Frames(crc, cur)| + |Frame(crc, e)|;
              && (FileOk(crc, limit, Frames(crc, cur + [e])) <==> total <= limit)
              && (total <= limit ==> FileOk(crc, limit, Frames(crc, cur)))
  {
    hide Frame, Frames, Scan, Sized, Counter;
    Alone(crc, e);
    ScanOfFrames(crc, [e]);
    if cur == [] {
      assert cur + [e] == [e];
    } else {
      OneMore(crc, cur, e);
      ScanOfFrames(crc, cur + [e]);
    }
  }

  lemma AppendKeepsWithinIff(crc: Checksum, limit: nat, d: Disk, cur: seq<Entry>, e: Entry)
    requires d.Valid() && d.files[d.active] == Frames(crc, cur) && d.size == Counter(crc, cur)
    requires AllSized(cur) && Sized(e)
    ensures Within(crc, limit, AppendTo(crc, limit, d, e).0.files)
       <==> Within(crc, limit, d.files) && Joins(crc, limit, cur, e)
  {
    hide Frame, Frames, Counter, AllSized, Sized, Within, FileOk;
    FilesOk(crc, limit, cur, e);
    OneMore(crc, cur, e);
    var d1 := AppendTo(crc, limit, d, e).0;
    if Rotates(crc, limit, cur, e) {
      assert d1.files == d.files[d.active + 1 := Frame(crc, e)];
      ReplaceFile(crc, limit, d.files, d.active + 1, Frame(crc, e));
    } else {
      assert d1.files == d.files[d.active := Frames(crc, cur + [e])];
      ReplaceFile(crc, limit, d.files, d.active, Frames(crc, cur + [e]));
    }
  }

  ghost predicate AllJoin(crc: Checksum, limit: nat, es: seq<Entry>) {
    forall k: nat :: k < |es| ==> Joins(crc, limit, Current(crc, limit, es[..k]), es[k])
  }

  lemma AllJoinLast(crc: Checksum, limit: nat, es: seq<Entry>)
    requires es != []
    ensures AllJoin(crc, limit, es) <==>
      var init := es[..|es| - 1];
      AllJoin(crc, limit, init) && Joins(crc, limit, Current(crc, limit, init), es[|es| - 1])
  {
    hide Joins, Current;
    var init := es[..|es| - 1];
    assert forall k: nat :: k < |init| ==> init[..k] == es[..k] && init[k] == es[k];
  }

  /** The limit is kept exactly when each entry that joins others keeps it by its real length. */
  lemma {:induction false} LimitKeptAtIff(crc: Checksum, limit: nat, es: seq<Entry>)
    requires AllSized(es)
    ensures LimitKept(crc, limit, es) <==> AllJoin(crc, limit, es)
    decreases |es|
  {
    hide AppendTo, Joins, Current, Frames, Counter, Scan, Sized;
    if es != [] {
      var init, e := es[..|es| - 1], es[|es| - 1];
      hide AppendAll, Within;
      LimitKeptAtIff(crc, limit, init);
      ActiveHoldsCurrent(crc, limit, init);
      CurrentIsPart(crc, limit, init);
      AppendLast(crc, limit, es);
      AppendKeepsWithinIff(crc, limit, AppendAll(crc, limit, EMPTY_DISK, init), Current(crc, limit, init), e);
      AllJoinLast(crc, limit, es);
      hide AllJoin;
    }
  }

  // Over all limits.

  /** The least limit that never makes the writer rotate. */
  function Reach(crc: Checksum, es: seq<Entry>): nat {
    if es == [] then 0
    else
      var init := es[..|es| - 1];
      var last := Counter(crc, init) + |Frame(crc, es[|es| - 1])|;
      if Reach(crc, init) > last then Reach(crc, init) else last
  }

  lemma CurrentJoined(crc: Checksum, limit: nat, es: seq<Entry>)
    requires es != [] && Current(crc, limit, es[..|es| - 1]) == es[..|es| - 1]
    requires !Rotates(crc, limit, es[..|es| - 1], es[|es| - 1])
    ensures Current(crc, limit, es) == es
  {
    hide Rotates;
    assert es == es[..|es| - 1] + [es[|es| - 1]];
  }

  lemma JoinOnly(crc: Checksum, limit: nat, file: Octets, size: nat, e: Entry)
    requires size + |Frame(crc, e)| <= limit
    ensures AppendTo(crc, limit, Disk(map[1 := file], 1, size), e).0
         == Disk(map[1 := file + Frame(crc, e)], 1, size + |Frame(crc, e)| % TWO_32)
  {
    hide Frame;
  }

  lemma {:induction false} OneFile(crc: Checksum, limit: nat, es: seq<Entry>)
    requires limit >= Reach(crc, es)
    ensures AppendAll(crc, limit, EMPTY_DISK, es)
         == Disk(map[1 := Frames(crc, es)], 1, Counter(crc, es))
    ensures Current(crc, limit, es) == es
  {
    if es != [] {
      hide Frame, Frames, AppendAll, AppendTo, Current;
      var init, e := es[..|es| - 1], es[|es| - 1];
      OneFile(crc, limit, init);
      AppendLast(crc, limit, es);
      FramesSnoc(crc, es);
      JoinOnly(crc, limit, Frames(crc, init), Counter(crc, init), e);
      CurrentJoined(crc, limit, es);
    }
  }

  lemma {:induction false} ReachFallsBehind(crc: Checksum, es: seq<Entry>)
    ensures Reach(crc, es) <= |Frames(crc, es)|
    ensures !AllButLastFit(es) ==> Reach(crc, es) < |Frames(crc, es)|
  {
    if es != [] {
      var init := es[..|es| - 1];
      ReachFallsBehind(crc, init);
      CounterFallsBehind(crc, init);
      FramesSnoc(crc, es);
      LengthCut(crc, es[|es| - 1]);
      FitSnoc(es);
      hide Frame, Frames, AllFit, AllButLastFit, FrameFits, Counter;
    }
  }

  /** The limit is kept, whatever it is, if and only if every frame but the last fits. */
  lemma LimitKeptIff(crc: Checksum, es: seq<Entry>)
    requires AllSized(es)
    ensures (forall limit: nat :: LimitKept(crc, limit, es)) <==> AllButLastFit(es)
  {
    if AllButLastFit(es) {
      forall limit: nat ensures LimitKept(crc, limit, es) {
        FitsKeepsLimit(crc, limit, es);
      }
    } else {
      ReachIsExceeded(crc, es);
      hide LimitKept;
      assert !LimitKept(crc, Reach(crc, es), es);
    }
  }

  lemma FitsKeepsLimit(crc: Checksum, limit: nat, es: seq<Entry>)
    requires AllSized(es) && AllButLastFit(es)
    ensures LimitKept(crc, limit, es)
  {
    forall k: nat | k < |es| ensures Joins(crc, limit, Current(crc, limit, es[..k]), es[k]) {
      CurrentIsPart(crc, limit, es[..k]);
      CounterFallsBehind(crc, Current(crc, limit, es[..k]));
      hide Current, Counter, Frame, Frames, FrameFits;
    }
    LimitKeptAtIff(crc, limit, es);
    hide *;
  }

  lemma ReachIsExceeded(crc: Checksum, es: seq<Entry>)
    requires AllSized(es) && !AllButLastFit(es)
    ensures !LimitKept(crc, Reach(crc, es), es)
  {
    hide Frame, Frames, Counter, Current, LimitKept, AppendAll, AllSized, FrameFits;
    var limit, init, e := Reach(crc, es), es[..|es| - 1], es[|es| - 1];
    ReachFallsBehind(crc, es);
    OneFile(crc, limit, init);
    FramesSnoc(crc, es);
    assert !Joins(crc, limit, Current(crc, limit, es[..|es| - 1]), es[|es| - 1]);
    LimitKeptAtIff(crc, limit, es);
  }

  /** And so do all locators point at their own frames. */
  lemma LocatorsPointIff(crc: Checksum, es: seq<Entry>)
    ensures (forall limit: nat, k: nat :: k < |es| ==> PointsAtFrame(crc, limit, es, k))
       <==> AllButLastFit(es)
  {
    if AllButLastFit(es) {
      forall limit: nat, k: nat | k < |es| ensures PointsAtFrame(crc, limit, es, k) {
        CurrentIsPart(crc, limit, es[..k]);
        PointsAtFrameIff(crc, limit, es, k);
        hide PointsAtFrame, Current, FrameFits;
      }
    } else {
      var i :| 0 <= i < |es| - 1 && !FrameFits(es[i]);
      OversizedMisleads(crc, es, i);
      hide PointsAtFrame, Reach;
      assert !PointsAtFrame(crc, Reach(crc, es[..i + 2]), es, i + 1);
    }
  }

  /** The append after a frame that does not fit gets an offset inside earlier bytes. */
  lemma OversizedMisleads(crc: Checksum, es: seq<Entry>, i: nat)
    requires i < |es| - 1 && !FrameFits(es[i])
    ensures !PointsAtFrame(crc, Reach(crc, es[..i + 2]), es, i + 1)
  {
    var k := i + 1;
    var limit := Reach(crc, es[..k + 1]);
    assert es[..k + 1][..k] == es[..k] && es[..k + 1][k] == es[k] && es[..k][i] == es[i];
    assert !AllFit(es[..k]);
    hide Frame, AllFit, FrameFits, PointsAtFrame, Counter;
    OneFile(crc, limit, es[..k]);
    PointsAtFrameIff(crc, limit, es, k);
  }

  /** A message whose frame is exactly 2^32 bytes long. */
  function HugeMessage(): (r: Record)
    ensures r.EnqueueRecord? && Fits(r)
    ensures Sized(Entry(Enqueue, Encode(r))) && !FrameFits(Entry(Enqueue, Encode(r)))
  {
    EnqueueRecord([], 0, [], [], [], seq(TWO_32 - 31, _ => 0))
  }

  /**
   * After it the counter is 0 again: the next message goes into the same segment, which is
   * then over its limit with two entries, and its locator yields the first message.
   */
  lemma HugeMessageMisleads(crc: Checksum, r: Record)
    requires r.EnqueueRecord? && Fits(r) && FrameFits(Entry(Enqueue, Encode(r)))
    ensures var huge := Entry(Enqueue, Encode(HugeMessage()));
      var d := AppendAll(crc, TWO_32, EMPTY_DISK, [huge]);
      var (d1, loc) := AppendTo(crc, TWO_32, d, Entry(Enqueue, Encode(r)));
      && !LimitKept(crc, TWO_32, [huge, Entry(Enqueue, Encode(r))])
      && loc.segment == 1 && loc.offset == 0
      && ReadPayload(crc, d1, loc) == Message([], HugeMessage().body)
  {
    var huge, e := Entry(Enqueue, Encode(HugeMessage())), Entry(Enqueue, Encode(r));
    HugeFrame(crc);
    HeadersAndBodyOfEnqueue(HugeMessage());
    hide Encode, Fits, HugeMessage;
    TwoInOneSegment(crc, huge, e);
    hide LimitKept, AppendAll, AppendTo, Frame, HeadersAndBody, ReadPayloadAt;
    var file := Frame(crc, huge) + Frame(crc, e);
    assert file[0..] == file;
    FrameYieldsPayload(crc, huge, file);
  }

  lemma AfterHuge(crc: Checksum, huge: Entry)
    requires |Frame(crc, huge)| == TWO_32
    ensures AppendAll(crc, TWO_32, EMPTY_DISK, [huge]) == Disk(map[1 := Frame(crc, huge)], 1, 0)
  {
    hide Frame;
    assert [huge][..0] == [] && AppendAll(crc, TWO_32, EMPTY_DISK, []) == EMPTY_DISK;
    hide AppendAll;
    AppendLast(crc, TWO_32, [huge]);
    assert [] + Frame(crc, huge) == Frame(crc, huge);
  }

  /** A frame of exactly 2^32 bytes leaves the counter at 0, so the next one joins it. */
  lemma TwoInOneSegment(crc: Checksum, huge: Entry, e: Entry)
    requires Sized(huge) && |Frame(crc, huge)| == TWO_32 && FrameFits(e)
    ensures var d := AppendAll(crc, TWO_32, EMPTY_DISK, [huge]);
      var (d1, loc) := AppendTo(crc, TWO_32, d, e);
      && d1.files == map[1 := Frame(crc, huge) + Frame(crc, e)]
      && loc.segment == 1 && loc.offset == 0
      && !LimitKept(crc, TWO_32, [huge, e])
  {
    var es := [huge, e];
    assert |Frame(crc, e)| == WAL_HEADER_SIZE + |e.data| && Sized(e);
    hide Frame, Frames, Scan, AppendAll, Counter;
    assert es[..1] == [huge] && [huge] + [e] == es;
    AfterHuge(crc, huge);
    AppendLast(crc, TWO_32, es);
    Alone(crc, huge);
    OneMore(crc, [huge], e);
    ScanOfFrames(crc, es);
    assert 1 in AppendAll(crc, TWO_32, EMPTY_DISK, es).files;
  }

  /** A message whose length field wraps to 0. */
  function OversizedMessage(): (r: Record)
    ensures r.EnqueueRecord? && Fits(r) && 1 + |Encode(r)| == TWO_32
  {
    EnqueueRecord([], 0, [], [], [], seq(TWO_32 - 23, _ => 0))
  }

  /** Logging it loses it, and everything logged into the same segment after it. */
  lemma OversizedMessageLosesRest(crc: Checksum, limit: nat, later: seq<Entry>)
    requires limit >= Reach(crc, [Entry(Enqueue, Encode(OversizedMessage()))] + later)
    ensures ReadAll(crc, AppendAll(crc, limit, EMPTY_DISK,
              [Entry(Enqueue, Encode(OversizedMessage()))] + later)) == []
  {
    var e := Entry(Enqueue, Encode(OversizedMessage()));
    var es := [e] + later;
    hide Encode, OversizedMessage, AppendAll, Reach;
    OneFile(crc, limit, es);
    FramesAppend(crc, [e], later);
    FramesSingle(crc, e);
    OversizedEntryHidesRest(crc, e, Frames(crc, later));
    hide Scan, Frames;
    var d := AppendAll(crc, limit, EMPTY_DISK, es);
    assert d.files.Keys == {1} == IdRange(1, 1);
    ReadAllGroups(crc, d, [[]]);
  }

  lemma HugeFrame(crc: Checksum)
    ensures var huge := Entry(Enqueue, Encode(HugeMessage()));
      |Frame(crc, huge)| == TWO_32 && HugeMessage().headers == []
  {
    hide Frame, BE32;
  }

  lemma FrameYieldsPayload(crc: Checksum, e: Entry, s: Octets)
    requires e.kind == Enqueue && Sized(e) && HeadersAndBody(e.data).Ok? && Frame(crc, e) <= s
    ensures var fields := HeadersAndBody(e.data).value;
      ReadPayloadAt(crc, s) == Message(fields.0, fields.1)
  {
    hide FromBE32, Frame, HeadersAndBody;
    FrameParts(crc, e, s);
    var n := |Payload(e)|;
    assert s[8..8 + n] == [s[8]] + s[9..8 + n];
    assert Payload(e)[0] == s[8] && Payload(e)[1..] == s[9..8 + n] == e.data;
  }

  /** Reads header and payload, checks them, and then reads the payload's fields. */
  method ReadFramedPayload(crc: Checksum, s: Octets) returns (r: PayloadResult)
    ensures r == ReadPayloadAt(crc, s)
  {
    hide BE32, FromBE32, HeadersAndBody;
    var file := new ByteReader(s);
    var header := file.ReadSlice(WAL_HEADER_SIZE);
    if header.Failure? {
      return Failed(Truncated);
    }
    var totalLen := FromBE32(header.value[0..4]);
    var expectedCrc := FromBE32(header.value[4..8]);
    var tag := header.value[8];
    assert header.value[0..4] == s[..4] && header.value[4..8] == s[4..8];
    if totalLen < 1 {
      return Failed(InvalidLength);
    }
    var payload := file.ReadSlice(totalLen - 1);
    if payload.Failure? {
      return Failed(Truncated);
    }
    assert payload.value == s[9..8 + totalLen];
    if crc([tag] + payload.value) != expectedCrc {
      return Failed(ChecksumMismatch);
    }
    if tag != Enqueue.Tag() {
      return Failed(NotAnEnqueue);
    }
    var fields := ReadHeadersAndBody(payload.value);
    r := if fields.Success? then Message(fields.value.0, fields.value.1) else Failed(Truncated);
  }

  /** Skips queue, id, exchange and routing key, and returns headers and body. */
  method ReadHeadersAndBody(payload: Octets) returns (r: Outcome<(Octets, Octets)>)
    ensures r == OutcomeOf(HeadersAndBody(payload))
  {
    hide TakeU16, TakeU32, TakeU64, FromBE16, FromBE32, FromBE64;
    var cur := new ByteReader(payload);
    var _ :- SkipBlob16(cur);
    var _ :- cur.ReadU64();
    var _ :- SkipBlob16(cur);
    var _ :- SkipBlob16(cur);
    var headers :- cur.ReadBytesU32();
    var body :- cur.ReadBytesU32();
    r := Success((headers, body));
  }

  method SkipBlob16(cur: ByteReader) returns (r: Outcome<Octets>)
    requires cur.Valid()
    modifies cur
    ensures cur.Valid() && r == OutcomeOf(TakeBlob16(old(cur.rest)))
    ensures r.Success? ==> cur.rest == TakeBlob16(old(cur.rest)).rest
  {
    var len :- cur.ReadU16();
    r := cur.ReadSlice(len);
  }

  function NewestSegment(files: map<int, Octets>): (id: int)
    ensures if files == map[] then id == 1 else id in files && forall other <- files :: other <= id
  {
    if files.Keys == {} then 1 else Largest(files.Keys)
  }

  /** The segment file being written. */
  class Segment {
    const crc: Checksum
    const id: int
    const maxSize: nat
    var file: Octets
    var size: nat

    constructor (crc: Checksum, id: int, file: Octets, maxSize: nat)
      ensures this.crc == crc && this.id == id && this.file == file && this.maxSize == maxSize
      ensures size == |file|
    {
      this.crc, this.id, this.file, this.size, this.maxSize := crc, id, file, |file|, maxSize;
    }

    /** The counter advances by the frame's length cut to 32 bits. */
    method Append(kind: EntryType, data: Octets) returns (offset: nat, length: u32)
      modifies this
      ensures file == old(file) + Frame(crc, Entry(kind, data))
      ensures offset == old(size) && length == |Frame(crc, Entry(kind, data))| % TWO_32
      ensures size == old(size) + length
    {
      var totalLen := (1 + |data|) % TWO_32;
      var entryBuf := BE32(totalLen);
      var checksum := crc([kind.Tag()] + data);
      entryBuf := entryBuf + BE32(checksum);
      entryBuf := entryBuf + [kind.Tag()];
      entryBuf := entryBuf + data;
      assert entryBuf == Frame(crc, Entry(kind, data));
      offset := size;
      file := file + entryBuf;
      length := |entryBuf| % TWO_32;
      size := size + length;
    }
  }

  class SegmentCoordinator {
    const crc: Checksum
    const maxSegmentSize: nat
    var closed: map<int, Octets>
    var active: Segment

    ghost predicate Valid()
      reads this, active
    {
      && active.crc == crc && active.maxSize == maxSegmentSize
      && forall id <- closed :: id < active.id
    }

    function View(): Disk
      reads this, active
    {
      Disk(closed[active.id := active.file], active.id, active.size)
    }

    /** Opens the directory: the newest segment is the one appended to, segment 1 if none. */
    constructor (crc: Checksum, files: map<int, Octets>, maxSegmentSize: nat)
      ensures Valid() && fresh(active) && this.crc == crc && this.maxSegmentSize == maxSegmentSize
      ensures View().files == if files == map[] then map[1 := []] else files
      ensures View().InSync()
    {
      var id := NewestSegment(files);
      this.crc, this.maxSegmentSize := crc, maxSegmentSize;
      closed := files - {id};
      active := new Segment(crc, id, if id in files then files[id] else [], maxSegmentSize);
    }

    method Append(kind: EntryType, data: Octets) returns (loc: Locator)
      requires Valid()
      modifies this, active
      ensures Valid() && (active == old(active) || fresh(active))
      ensures (View(), loc) == AppendTo(crc, maxSegmentSize, old(View()), Entry(kind, data))
    {
      hide Frame;
      var entrySize := WAL_HEADER_SIZE + |data|;
      if active.size + entrySize > active.maxSize {
        closed := closed[active.id := active.file];
        active := new Segment(crc, active.id + 1, [], maxSegmentSize);
      }
      ghost var frame := Frame(crc, Entry(kind, data));
      assert [] + frame == frame;
      var offset, length := active.Append(kind, data);
      loc := Locator(active.id, offset, length);
      assert View() == AppendTo(crc, maxSegmentSize, old(View()), Entry(kind, data)).0;
    }

    method ReadMessagePayload(loc: Locator) returns (r: PayloadResult)
      requires Valid()
      ensures r == ReadPayload(crc, View(), loc)
    {
      var files := closed[active.id := active.file];
      if loc.segment !in files {
        return Failed(NoSuchSegment);
      }
      if |files[loc.segment]| < loc.offset {
        return Failed(Truncated);
      }
      r := ReadFramedPayload(crc, files[loc.segment][loc.offset..]);
    }

    method ReadAllEntries() returns (entries: seq<Entry>)
      requires Valid()
      ensures entries == ReadAll(crc, View())
    {
      var files := closed[active.id := active.file];
      var ids := Ascending(files.Keys);
      entries := [];
      var i := 0;
      while i < |ids|
        invariant 0 <= i <= |ids|
        invariant entries + ScanFiles(crc, files, ids[i..]) == ScanFiles(crc, files, ids)
      {
        ScanFilesStep(crc, files, ids, i, entries);
        hide Scan, ScanFiles;
        var more := ReadEntries(crc, files[ids[i]]);
        entries := entries + more;
        i := i + 1;
      }
    }

    method Truncate()
      requires Valid()
      modifies this
      ensures Valid() && fresh(active) && View() == EMPTY_DISK
    {
      closed := map[];
      active := new Segment(crc, 1, [], maxSegmentSize);
    }
  }
}
