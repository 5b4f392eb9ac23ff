// The bucketed priority queue. Its buckets, one per priority level, implement a single
// sequence: priority descending, first in first out within a priority.
module PriorityQueues {
  import opened Bytes
  import opened Messages
  import opened Ordered

  const LEVELS: int := 0x100

  // The sequence the queue stands for.

  predicate Descending(s: seq<QueueMessage>) {
    forall i, j :: 0 <= i < j < |s| ==> s[i].Priority() >= s[j].Priority()
  }

  /** How many messages at the front have at least the given priority. */
  function Leading(s: seq<QueueMessage>, p: int): (n: nat)
    ensures n <= |s|
    ensures forall i :: 0 <= i < n ==> s[i].Priority() >= p
    ensures n < |s| ==> s[n].Priority() < p
  {
    if s == [] || s[0].Priority() < p then 0 else 1 + Leading(s[1..], p)
  }

  function Insert(s: seq<QueueMessage>, k: nat, m: QueueMessage): seq<QueueMessage>
    requires k <= |s|
  {
    s[..k] + [m] + s[k..]
  }

  /** Behind every message of its own or a higher priority. */
  function AfterPushBack(s: seq<QueueMessage>, m: QueueMessage): seq<QueueMessage> {
    Insert(s, Leading(s, m.Priority()), m)
  }

  /** In front of every message of its own or a lower priority. */
  function AfterPushFront(s: seq<QueueMessage>, m: QueueMessage): seq<QueueMessage> {
    Insert(s, Leading(s, m.Priority() + 1), m)
  }

  /** The front of the lowest priority present. */
  function OldestIndex(s: seq<QueueMessage>): (k: nat)
    requires Descending(s) && s != []
    ensures k < |s| && s[k].Priority() == s[|s| - 1].Priority()
    ensures forall i :: 0 <= i < k ==> s[i].Priority() > s[k].Priority()
  {
    Leading(s, s[|s| - 1].Priority() + 1)
  }

  function RemoveAt(s: seq<QueueMessage>, k: nat): seq<QueueMessage>
    requires k < |s|
  {
    s[..k] + s[k + 1..]
  }

  function Level(s: seq<QueueMessage>, p: byte): seq<QueueMessage> {
    if s == [] then []
    else if s[0].Priority() == p then [s[0]] + Level(s[1..], p)
    else Level(s[1..], p)
  }

  lemma {:induction false} LevelAppend(a: seq<QueueMessage>, b: seq<QueueMessage>, p: byte)
    ensures Level(a + b, p) == Level(a, p) + Level(b, p)
  {
    if a == [] {
      assert a + b == b;
    } else {
      assert (a + b)[1..] == a[1..] + b;
      LevelAppend(a[1..], b, p);
    }
  }

  lemma {:induction false} LevelAbsent(s: seq<QueueMessage>, p: byte)
    requires forall m <- s :: m.Priority() != p
    ensures Level(s, p) == []
  {
    if s != [] {
      LevelAbsent(s[1..], p);
    }
  }

  lemma HeadIsHighest(s: seq<QueueMessage>)
    requires Descending(s) && s != []
    ensures forall m <- s :: m.Priority() <= s[0].Priority()
    ensures Descending(s[1..])
  {
    forall m | m in s
      ensures m.Priority() <= s[0].Priority()
    {
      var i :| 0 <= i < |s| && s[i] == m;
    }
  }

  /** Two descending sequences with the same levels have the same head. */
  lemma SameHead(a: seq<QueueMessage>, b: seq<QueueMessage>)
    requires Descending(a) && Descending(b) && a != []
    requires forall p: byte :: Level(a, p) == Level(b, p)
    ensures b != [] && b[0] == a[0]
  {
    var p := a[0].Priority();
    assert Level(a, p) == Level(b, p) && Level(a, p)[0] == a[0];
    assert b != [];
    HeadIsHighest(a);
    HeadIsHighest(b);
    var q := b[0].Priority();
    assert Level(a, q) == Level(b, q) && Level(b, q)[0] == b[0];
    if p < q { LevelAbsent(a, q); }
    if q < p { LevelAbsent(b, p); }
  }

  /** A descending sequence is determined by its levels. */
  lemma {:induction false} LevelsDetermine(a: seq<QueueMessage>, b: seq<QueueMessage>)
    requires Descending(a) && Descending(b)
    requires forall p: byte :: Level(a, p) == Level(b, p)
    ensures a == b
  {
    if a == [] {
      if b != [] { SameHead(b, a); }
    } else {
      SameHead(a, b);
      HeadIsHighest(a);
      HeadIsHighest(b);
      forall r: byte
        ensures Level(a[1..], r) == Level(b[1..], r)
      {
        assert Level(a, r) == Level(b, r);
        if r == a[0].Priority() {
          assert Level(a, r)[1..] == Level(a[1..], r) && Level(b, r)[1..] == Level(b[1..], r);
        }
      }
      LevelsDetermine(a[1..], b[1..]);
      assert a == [a[0]] + a[1..] && b == [b[0]] + b[1..];
    }
  }

  /** Pushing at either end keeps the order and touches only the message's own level. */
  lemma PushIsStable(s: seq<QueueMessage>, m: QueueMessage)
    requires Descending(s)
    ensures Descending(AfterPushBack(s, m)) && Descending(AfterPushFront(s, m))
    ensures forall p: byte :: Level(AfterPushBack(s, m), p) ==
              if p == m.Priority() then Level(s, p) + [m] else Level(s, p)
    ensures forall p: byte :: Level(AfterPushFront(s, m), p) ==
              if p == m.Priority() then [m] + Level(s, p) else Level(s, p)
  {
    InsertKeepsDescending(s, m.Priority(), m);
    InsertKeepsDescending(s, m.Priority() as int + 1, m);
    hide Level, AfterPushBack, AfterPushFront, Descending;
    forall p: byte
      ensures Level(AfterPushBack(s, m), p) ==
        if p == m.Priority() then Level(s, p) + [m] else Level(s, p)
      ensures Level(AfterPushFront(s, m), p) ==
        if p == m.Priority() then [m] + Level(s, p) else Level(s, p)
    {
      PushLevels(s, m, p);
    }
  }

  lemma InsertKeepsDescending(s: seq<QueueMessage>, at: int, m: QueueMessage)
    requires Descending(s) && (at == m.Priority() || at == m.Priority() as int + 1)
    ensures Descending(Insert(s, Leading(s, at), m))
  {
  }

  lemma PushLevels(s: seq<QueueMessage>, m: QueueMessage, p: byte)
    requires Descending(s)
    ensures Level(AfterPushBack(s, m), p) ==
      if p == m.Priority() then Level(s, p) + [m] else Level(s, p)
    ensures Level(AfterPushFront(s, m), p) ==
      if p == m.Priority() then [m] + Level(s, p) else Level(s, p)
  {
    hide Level, Leading, Insert, Descending;
    PushLevel(s, m.Priority(), m, p);
    PushLevel(s, m.Priority() as int + 1, m, p);
  }

  /** Inserting behind the messages of at least a priority that differs from the next by m. */
  lemma PushLevel(s: seq<QueueMessage>, at: int, m: QueueMessage, p: byte)
    requires Descending(s) && (at == m.Priority() || at == m.Priority() as int + 1)
    ensures Level(Insert(s, Leading(s, at), m), p) ==
      if p != m.Priority() then Level(s, p)
      else if at == p then Level(s, p) + [m] else [m] + Level(s, p)
  {
    hide Level, Leading, Insert, Descending;
    var k := Leading(s, at);
    AroundLeading(s, at);
    InsertLevel(s, k, m, p);
    if p != m.Priority() {
      LevelAbsent([m], p);
    } else {
      LevelOne(m);
      if at == p {
        LevelAbsent(s[k..], p);
      } else {
        LevelAbsent(s[..k], p);
      }
    }
  }

  lemma LevelOne(m: QueueMessage)
    ensures Level([m], m.Priority()) == [m]
  {
  }

  lemma AroundLeading(s: seq<QueueMessage>, p: int)
    requires Descending(s)
    ensures forall m <- s[..Leading(s, p)] :: m.Priority() >= p
    ensures forall m <- s[Leading(s, p)..] :: m.Priority() < p
  {
    var k := Leading(s, p);
    forall m | m in s[k..]
      ensures m.Priority() < p
    {
      var i :| k <= i < |s| && s[i] == m;
    }
  }

  lemma InsertLevel(s: seq<QueueMessage>, k: nat, m: QueueMessage, p: byte)
    requires k <= |s|
    ensures Level(Insert(s, k, m), p) == Level(s[..k], p) + Level([m], p) + Level(s[k..], p)
    ensures Level(s, p) == Level(s[..k], p) + Level(s[k..], p)
  {
    assert s == s[..k] + s[k..];
    LevelAppend(s[..k], s[k..], p);
    LevelAppend(s[..k] + [m], s[k..], p);
    LevelAppend(s[..k], [m], p);
  }

  function PushBackAll(s: seq<QueueMessage>, ms: seq<QueueMessage>): seq<QueueMessage>
    decreases |ms|
  {
    if ms == [] then s else PushBackAll(AfterPushBack(s, ms[0]), ms[1..])
  }

  /**
   * Whatever is pushed, the result is the stable sort of it by descending priority: in
   * order, and within each level exactly the pushed messages in the order of pushing.
   */
  lemma {:induction false} PushBackAllSortsStably(s: seq<QueueMessage>, ms: seq<QueueMessage>)
    requires Descending(s)
    ensures Descending(PushBackAll(s, ms))
    ensures forall p: byte :: Level(PushBackAll(s, ms), p) == Level(s, p) + Level(ms, p)
    decreases |ms|
  {
    if ms != [] {
      PushIsStable(s, ms[0]);
      PushBackAllSortsStably(AfterPushBack(s, ms[0]), ms[1..]);
    }
  }

  /** Draining a queue and pushing everything back rebuilds it. */
  lemma RebuildIsIdentity(s: seq<QueueMessage>)
    requires Descending(s)
    ensures PushBackAll([], s) == s
  {
    PushBackAllSortsStably([], s);
    LevelsDetermine(PushBackAll([], s), s);
  }

  // The buckets.

  type Buckets = map<int, seq<QueueMessage>>

  ghost predicate WellFormed(b: Buckets) {
    forall p <- b :: 0 <= p < LEVELS && b[p] != [] && forall m <- b[p] :: m.Priority() == p
  }

  function Bucket(b: Buckets, p: int): seq<QueueMessage> {
    if p in b then b[p] else []
  }

  /** The buckets with lo <= priority < hi, highest first. */
  function Between(b: Buckets, lo: int, hi: int): seq<QueueMessage>
    decreases hi - lo
  {
    if lo >= hi then [] else Bucket(b, hi - 1) + Between(b, lo, hi - 1)
  }

  function Flat(b: Buckets): seq<QueueMessage> {
    Between(b, 0, LEVELS)
  }

  lemma {:induction false} BetweenSplit(b: Buckets, lo: int, mid: int, hi: int)
    requires lo <= mid <= hi
    ensures Between(b, lo, hi) == Between(b, mid, hi) + Between(b, lo, mid)
    decreases hi - mid
  {
    if mid < hi {
      BetweenSplit(b, lo, mid, hi - 1);
    }
  }

  lemma {:induction false} BetweenSame(b: Buckets, c: Buckets, lo: int, hi: int)
    requires forall p :: lo <= p < hi ==> Bucket(b, p) == Bucket(c, p)
    ensures Between(b, lo, hi) == Between(c, lo, hi)
    decreases hi - lo
  {
    if lo < hi {
      BetweenSame(b, c, lo, hi - 1);
    }
  }

  lemma {:induction false} BetweenEmpty(b: Buckets, lo: int, hi: int)
    requires forall p :: lo <= p < hi ==> p !in b
    ensures Between(b, lo, hi) == []
    decreases hi - lo
  {
    if lo < hi {
      BetweenEmpty(b, lo, hi - 1);
    }
  }

  lemma {:induction false} BetweenPriorities(b: Buckets, lo: int, hi: int)
    requires WellFormed(b)
    ensures forall m <- Between(b, lo, hi) :: lo <= m.Priority() < hi
    ensures Descending(Between(b, lo, hi))
    decreases hi - lo
  {
    if lo < hi {
      BetweenPriorities(b, lo, hi - 1);
      assert forall m <- Bucket(b, hi - 1) :: m.Priority() == hi - 1;
    }
  }

  /** Splitting the whole queue around one level. */
  lemma FlatAround(b: Buckets, p: int)
    requires WellFormed(b) && 0 <= p < LEVELS
    ensures Flat(b) == Between(b, p + 1, LEVELS) + (Bucket(b, p) + Between(b, 0, p))
    ensures forall m <- Between(b, p + 1, LEVELS) :: m.Priority() > p
    ensures forall m <- Bucket(b, p) :: m.Priority() == p
    ensures forall m <- Between(b, 0, p) :: m.Priority() < p
  {
    BetweenSplit(b, 0, p + 1, LEVELS);
    BetweenPriorities(b, p + 1, LEVELS);
    BetweenPriorities(b, 0, p);
  }

  lemma {:induction false} LeadingIs(a: seq<QueueMessage>, b: seq<QueueMessage>, p: int)
    requires forall m <- a :: m.Priority() >= p
    requires forall m <- b :: m.Priority() < p
    ensures Leading(a + b, p) == |a|
  {
    if a == [] {
      assert a + b == b;
    } else {
      assert (a + b)[1..] == a[1..] + b;
      LeadingIs(a[1..], b, p);
    }
  }

  /** Where pushes go in a sequence split around the message's level. */
  lemma InsertBetween(a: seq<QueueMessage>, b: seq<QueueMessage>, m: QueueMessage)
    ensures Insert(a + b, |a|, m) == a + [m] + b
  {
    assert (a + b)[..|a|] == a && (a + b)[|a|..] == b;
  }

  lemma Regroup(a: seq<QueueMessage>, b: seq<QueueMessage>, c: seq<QueueMessage>, m: QueueMessage)
    ensures (a + b) + [m] + c == a + ((b + [m]) + c)
    ensures a + [m] + (b + c) == a + (([m] + b) + c)
    ensures (a + b) + c == a + (b + c)
  {
  }

  lemma PushAround(high: seq<QueueMessage>, level: seq<QueueMessage>, low: seq<QueueMessage>,
                   m: QueueMessage)
    requires forall x <- high :: x.Priority() > m.Priority()
    requires forall x <- level :: x.Priority() == m.Priority()
    requires forall x <- low :: x.Priority() < m.Priority()
    ensures AfterPushBack(high + (level + low), m) == high + ((level + [m]) + low)
    ensures AfterPushFront(high + (level + low), m) == high + (([m] + level) + low)
  {
    hide Leading, Insert;
    var p: int := m.Priority();
    LeadingIs(high, level + low, p + 1);
    LeadingIs(high + level, low, p);
    InsertBetween(high, level + low, m);
    InsertBetween(high + level, low, m);
    Regroup(high, level, low, m);
  }

  /** Replacing one bucket changes only that level. */
  lemma FlatUpdate(b: Buckets, c: Buckets, p: int)
    requires 0 <= p < LEVELS
    requires forall q :: q != p ==> Bucket(b, q) == Bucket(c, q)
    ensures Flat(c) == Between(b, p + 1, LEVELS) + (Bucket(c, p) + Between(b, 0, p))
  {
    BetweenSplit(c, 0, p + 1, LEVELS);
    BetweenSame(b, c, p + 1, LEVELS);
    BetweenSame(b, c, 0, p);
  }

  function PushedBack(b: Buckets, m: QueueMessage): Buckets {
    b[m.Priority() as int := Bucket(b, m.Priority()) + [m]]
  }

  function PushedFront(b: Buckets, m: QueueMessage): Buckets {
    b[m.Priority() as int := [m] + Bucket(b, m.Priority())]
  }

  lemma OneLonger(s: seq<QueueMessage>, m: QueueMessage)
    ensures |AfterPushBack(s, m)| == |AfterPushFront(s, m)| == |s| + 1
  {
    hide Leading;
  }

  lemma BucketsPushed(b: Buckets, m: QueueMessage)
    requires WellFormed(b)
    ensures WellFormed(PushedBack(b, m)) && WellFormed(PushedFront(b, m))
    ensures Flat(PushedBack(b, m)) == AfterPushBack(Flat(b), m)
    ensures Flat(PushedFront(b, m)) == AfterPushFront(Flat(b), m)
  {
    var p := m.Priority();
    FlatAround(b, p);
    var back, front := PushedBack(b, m), PushedFront(b, m);
    assert forall q :: q != p ==> Bucket(b, q) == Bucket(back, q) && Bucket(b, q) == Bucket(front, q);
    WellFormedUpdate(b, p, Bucket(b, p) + [m]);
    WellFormedUpdate(b, p, [m] + Bucket(b, p));
    hide Bucket, WellFormed, AfterPushBack, AfterPushFront;
    FlatUpdate(b, back, p);
    FlatUpdate(b, front, p);
    PushAround(Between(b, p as int + 1, LEVELS), Bucket(b, p), Between(b, 0, p), m);
  }

  lemma WellFormedUpdate(b: Buckets, p: int, level: seq<QueueMessage>)
    requires WellFormed(b) && 0 <= p < LEVELS && level != []
    requires forall m <- level :: m.Priority() == p
    ensures WellFormed(b[p := level]) && Bucket(b[p := level], p) == level
  {
  }

  /** The buckets without the first message of one of them; an emptied bucket is dropped. */
  function DropFirst(b: Buckets, p: int): Buckets
    requires p in b && b[p] != []
  {
    if b[p][1..] == [] then b - {p} else b[p := b[p][1..]]
  }

  lemma DropFirstBuckets(b: Buckets, p: int)
    requires WellFormed(b) && p in b
    ensures 0 <= p < LEVELS && b[p] != [] && Bucket(b, p) == b[p]
    ensures WellFormed(DropFirst(b, p)) && Bucket(DropFirst(b, p), p) == b[p][1..]
    ensures forall q :: q != p ==> Bucket(b, q) == Bucket(DropFirst(b, p), q)
  {
  }

  lemma BucketsPopped(b: Buckets, p: int)
    requires WellFormed(b) && p in b
    ensures WellFormed(DropFirst(b, p))
    ensures var k := |Between(b, p + 1, LEVELS)|;
      && k < |Flat(b)| && Flat(b)[k] == b[p][0]
      && Flat(DropFirst(b, p)) == RemoveAt(Flat(b), k)
  {
    var c := DropFirst(b, p);
    DropFirstBuckets(b, p);
    hide WellFormed, Between, DropFirst, Bucket;
    FlatAround(b, p);
    FlatUpdate(b, c, p);
    hide Flat;
    RemoveAround(Between(b, p + 1, LEVELS), b[p], Between(b, 0, p));
  }

  lemma RemoveAround(
    high: seq<QueueMessage>, level: seq<QueueMessage>, low: seq<QueueMessage>)
    requires level != []
    ensures (high + (level + low))[|high|] == level[0]
    ensures RemoveAt(high + (level + low), |high|) == high + (level[1..] + low)
  {
    var s := high + (level + low);
    assert s[..|high|] == high;
    assert s[|high| + 1..] == level[1..] + low;
  }

  lemma OldestIsLowestBucket(b: Buckets, p: int)
    requires WellFormed(b) && p in b && forall q <- b :: p <= q
    ensures Descending(Flat(b)) && Flat(b) != []
    ensures OldestIndex(Flat(b)) == |Between(b, p + 1, LEVELS)|
  {
    BetweenEmpty(b, 0, p);
    BetweenPriorities(b, 0, LEVELS);
    FlatAround(b, p);
    var high, level := Between(b, p + 1, LEVELS), b[p];
    assert level + [] == level;
    assert (high + level)[|high + level| - 1] in level;
    LeadingIs(high, level, p + 1);
  }

  class PriorityQueue {
    var buckets: Buckets
    var totalLen: nat

    ghost predicate Valid()
      reads this
    {
      WellFormed(buckets) && totalLen == |Flat(buckets)|
    }

    /** What the queue holds, in delivery order. */
    ghost function Contents(): seq<QueueMessage>
      reads this
    {
      Flat(buckets)
    }

    constructor ()
      ensures Valid() && Contents() == []
    {
      buckets, totalLen := map[], 0;
      BetweenEmpty(map[], 0, LEVELS);
    }

    method PushBack(msg: QueueMessage)
      requires Valid()
      modifies this
      ensures Valid() && Contents() == AfterPushBack(old(Contents()), msg)
    {
      BucketsPushed(buckets, msg);
      OneLonger(Contents(), msg);
      hide WellFormed, Flat, AfterPushBack, PushedBack, AfterPushFront, PushedFront;
      buckets := PushedBack(buckets, msg);
      totalLen := totalLen + 1;
    }

    method PushFront(msg: QueueMessage)
      requires Valid()
      modifies this
      ensures Valid() && Contents() == AfterPushFront(old(Contents()), msg)
    {
      BucketsPushed(buckets, msg);
      OneLonger(Contents(), msg);
      hide WellFormed, Flat, AfterPushBack, PushedBack, AfterPushFront, PushedFront;
      buckets := PushedFront(buckets, msg);
      totalLen := totalLen + 1;
    }

    method PopFront() returns (msg: Option<QueueMessage>)
      requires Valid()
      modifies this
      ensures Valid()
      ensures if old(Contents()) == [] then msg == None && Contents() == []
              else msg == Some(old(Contents())[0]) && Contents() == old(Contents())[1..]
    {
      if buckets.Keys == {} {
        BetweenEmpty(buckets, 0, LEVELS);
        return None;
      }
      var key := Largest(buckets.Keys);
      BetweenEmpty(buckets, key + 1, LEVELS);
      msg := TakeFirst(key);
    }

    method PopOldest() returns (msg: Option<QueueMessage>)
      requires Valid()
      modifies this
      ensures Valid() && Descending(old(Contents()))
      ensures if old(Contents()) == [] then msg == None && Contents() == []
              else var k := OldestIndex(old(Contents()));
                msg == Some(old(Contents())[k]) && Contents() == RemoveAt(old(Contents()), k)
    {
      BetweenPriorities(buckets, 0, LEVELS);
      if buckets.Keys == {} {
        BetweenEmpty(buckets, 0, LEVELS);
        return None;
      }
      var key := Smallest(buckets.Keys);
      OldestIsLowestBucket(buckets, key);
      msg := TakeFirst(key);
    }

    /** Takes the first message of a nonempty bucket, dropping the bucket once it is empty. */
    method TakeFirst(key: int) returns (msg: Option<QueueMessage>)
      requires Valid() && key in buckets
      modifies this
      ensures Valid()
      ensures var k := |Between(old(buckets), key + 1, LEVELS)|;
        k < |old(Contents())|
        && msg == Some(old(Contents())[k]) && Contents() == RemoveAt(old(Contents()), k)
    {
      BucketsPopped(buckets, key);
      var queue := buckets[key];
      msg := Some(queue[0]);
      buckets := DropFirst(buckets, key);
      totalLen := totalLen - 1;
    }

    method PeekFront() returns (msg: Option<QueueMessage>)
      requires Valid()
      ensures msg == if Contents() == [] then None else Some(Contents()[0])
    {
      if buckets.Keys == {} {
        BetweenEmpty(buckets, 0, LEVELS);
        return None;
      }
      var key := Largest(buckets.Keys);
      BetweenEmpty(buckets, key + 1, LEVELS);
      FlatAround(buckets, key);
      msg := Some(buckets[key][0]);
    }

    method Len() returns (n: nat)
      requires Valid()
      ensures n == |Contents()|
    {
      n := totalLen;
    }

    method IsEmpty() returns (empty: bool)
      requires Valid()
      ensures empty <==> Contents() == []
    {
      empty := totalLen == 0;
    }

    method Clear()
      requires Valid()
      modifies this
      ensures Valid() && Contents() == []
    {
      buckets, totalLen := map[], 0;
      BetweenEmpty(map[], 0, LEVELS);
    }
  }

  // Removing one id by draining and rebuilding.

  function Without(s: seq<QueueMessage>, id: u64): seq<QueueMessage> {
    if s == [] then []
    else if s[0].Id() == id then Without(s[1..], id)
    else [s[0]] + Without(s[1..], id)
  }

  lemma {:induction false} WithoutKeepsOrder(s: seq<QueueMessage>, id: u64)
    ensures forall m :: m in Without(s, id) <==> m in s && m.Id() != id
    ensures Descending(s) ==> Descending(Without(s, id))
  {
    if s != [] {
      WithoutKeepsOrder(s[1..], id);
      if Descending(s) {
        HeadIsHighest(s);
      }
    }
  }

  predicate HasId(s: seq<QueueMessage>, id: u64) {
    exists i :: 0 <= i < |s| && s[i].Id() == id
  }

  /**
   * A replicated acknowledgement: drains the queue, keeping the messages with another id,
   * and pushes those back. Removes exactly the messages with that id and keeps the order of
   * the rest.
   */
  method RemoveById(q: PriorityQueue, id: u64) returns (found: bool)
    requires q.Valid()
    modifies q
    ensures q.Valid() && q.Contents() == Without(old(q.Contents()), id)
    ensures found <==> HasId(old(q.Contents()), id)
  {
    BetweenPriorities(q.buckets, 0, LEVELS);
    WithoutKeepsOrder(q.Contents(), id);
    var temp;
    found, temp := DrainWithout(q, id);
    PushAllBack(q, temp);
    RebuildIsIdentity(temp);
  }

  method DrainWithout(q: PriorityQueue, id: u64) returns (found: bool, temp: seq<QueueMessage>)
    requires q.Valid()
    modifies q
    ensures q.Valid() && q.Contents() == []
    ensures temp == Without(old(q.Contents()), id)
    ensures found <==> HasId(old(q.Contents()), id)
  {
    ghost var all := q.Contents();
    assert Without([], id) == [] && !HasId([], id);
    hide Without, HasId, Flat, WellFormed;
    found, temp := false, [];
    var msg := q.PopFront();
    ghost var left := all;
    while msg.Some?
      invariant q.Valid()
      invariant if left == [] then msg == None && q.Contents() == []
                else msg == Some(left[0]) && q.Contents() == left[1..]
      invariant Without(all, id) == temp + Without(left, id)
      invariant HasId(all, id) <==> found || HasId(left, id)
      decreases |left|
    {
      WithoutStep(left, id, temp);
      HasIdStep(left, id);
      if msg.value.Id() == id {
        found := true;
      } else {
        temp := temp + [msg.value];
      }
      left := left[1..];
      msg := q.PopFront();
    }
    assert temp + [] == temp;
  }

  lemma WithoutStep(s: seq<QueueMessage>, id: u64, before: seq<QueueMessage>)
    requires s != []
    ensures before + Without(s, id)
         == (if s[0].Id() == id then before else before + [s[0]]) + Without(s[1..], id)
  {
  }

  lemma HasIdStep(s: seq<QueueMessage>, id: u64)
    requires s != []
    ensures HasId(s, id) <==> s[0].Id() == id || HasId(s[1..], id)
  {
    assert forall i :: 0 < i < |s| ==> s[i] == s[1..][i - 1];
    assert forall i :: 0 <= i < |s| - 1 ==> s[1..][i] == s[i + 1];
  }

  method PushAllBack(q: PriorityQueue, ms: seq<QueueMessage>)
    requires q.Valid()
    modifies q
    ensures q.Valid() && q.Contents() == PushBackAll(old(q.Contents()), ms)
  {
    var temp := ms;
    while temp != []
      invariant q.Valid()
      invariant PushBackAll(q.Contents(), temp) == PushBackAll(old(q.Contents()), ms)
      decreases |temp|
    {
      q.PushBack(temp[0]);
      temp := temp[1..];
    }
  }
}
