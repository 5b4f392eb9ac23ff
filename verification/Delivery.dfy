// The delivery pass over one queue: a round-robin scan for a consumer with prefetch
// capacity, and the bookkeeping of each message sent.
module Delivery {
  import opened Bytes
  import opened Messages
  import opened PriorityQueues

  datatype Channel = Channel(prefetchCount: u16, unackedCount: u16, flowActive: bool)

  /** The channels of all connections, by connection and channel number. */
  type Channels = map<(u64, u16), Channel>

  datatype Consumer = Consumer(tag: Octets, connId: u64, channel: u16, noAck: bool)

  predicate CanDeliver(ch: Channel) {
    ch.flowActive && (ch.prefetchCount == 0 || ch.unackedCount < ch.prefetchCount)
  }

  /** A connection or channel that is not known counts as having room. */
  predicate HasCapacity(channels: Channels, c: Consumer) {
    (c.connId, c.channel) in channels ==> CanDeliver(channels[(c.connId, c.channel)])
  }

  function Incremented(channels: Channels, c: Consumer): Channels {
    var key := (c.connId, c.channel);
    if key !in channels then channels
    else channels[key := channels[key].(unackedCount := (channels[key].unackedCount + 1) % TWO_16)]
  }

  // The round-robin scan.

  function Scan(channels: Channels, consumers: seq<Consumer>, next: nat, tries: nat)
    : (Option<nat>, nat)
    requires consumers != []
    decreases tries
  {
    if tries == 0 then (None, next)
    else if HasCapacity(channels, consumers[next % |consumers|])
    then (Some(next % |consumers|), next + 1)
    else Scan(channels, consumers, next + 1, tries - 1)
  }

  /** The consumer to serve, if any, and where the next scan starts. */
  function Select(channels: Channels, consumers: seq<Consumer>, next: nat): (Option<nat>, nat) {
    if consumers == [] then (None, next) else Scan(channels, consumers, next, |consumers|)
  }

  method NextReadyConsumer(channels: Channels, consumers: seq<Consumer>, nextListener: nat)
    returns (pick: Option<nat>, next: nat)
    ensures (pick, next) == Select(channels, consumers, nextListener)
  {
    var n := |consumers|;
    next := nextListener;
    var i := 0;
    while i < n
      invariant 0 <= i <= n
      invariant n > 0 ==>
        Scan(channels, consumers, next, n - i) == Scan(channels, consumers, nextListener, n)
      invariant n == 0 ==> next == nextListener
    {
      var idx := next % n;
      next := next + 1;
      if HasCapacity(channels, consumers[idx]) {
        return Some(idx), next;
      }
      i := i + 1;
    }
    pick := None;
  }

  /** The consumer d steps after the starting point. */
  function Turn(n: nat, next: nat, d: nat): (k: nat)
    requires n > 0
    ensures k < n
  {
    (next + d) % n
  }

  /** How many steps the scan takes from `next` to consumer k. */
  function Distance(n: nat, next: nat, k: nat): (d: nat)
    requires k < n
    ensures d < n && Turn(n, next, d) == k
  {
    var at := next % n;
    var d := if k >= at then k - at else k + n - at;
    ModShift(n, next, d, k);
    d
  }

  lemma ModShift(n: nat, next: nat, d: nat, k: nat)
    requires k < n && (next % n + d == k || next % n + d == k + n)
    ensures (next + d) % n == k
  {
    var q := next / n;
    if next % n + d == k {
      ModUnique(n, next + d, q, k);
    } else {
      assert next + d == n * (q + 1) + k;
      ModUnique(n, next + d, q + 1, k);
    }
  }

  lemma ModUnique(n: nat, x: nat, q: nat, k: nat)
    requires k < n && x == n * q + k
    ensures x % n == k
  {
    MulGap(n, x / n - q);
    assert n * (x / n - q) == n * (x / n) - n * q;
  }

  lemma MulGap(n: nat, a: int)
    ensures a >= 1 ==> n * a >= n
    ensures a <= -1 ==> n * a + n <= 0
  {
    if a >= 1 {
      assert n * a == n * (a - 1) + n;
      assert n * (a - 1) >= 0;
    } else if a <= -1 {
      assert n * a == -(n * (-a - 1)) - n;
      assert n * (-a - 1) >= 0;
    }
  }

  /** Positions less than n apart are different consumers. */
  lemma DistanceIsUnique(n: nat, next: nat, d: nat)
    requires d < n
    ensures Distance(n, next, Turn(n, next, d)) == d
  {
    var k := Turn(n, next, d);
    var at := next % n;
    var whole := if at + d < n then at + d else at + d - n;
    ModShift(n, next, d, whole);
  }

  lemma TurnAfter(n: nat, next: nat, d: nat)
    requires n > 0
    ensures Turn(n, next + 1, d) == Turn(n, next, d + 1)
  {
    assert next + 1 + d == next + (d + 1);
  }

  lemma {:induction false} ScanFindsFirst(
    channels: Channels, consumers: seq<Consumer>, next: nat, tries: nat)
    returns (d: nat)
    requires consumers != []
    ensures var n := |consumers|; var (pick, after) := Scan(channels, consumers, next, tries);
      && (forall e: nat :: e < d ==> !HasCapacity(channels, consumers[Turn(n, next, e)]))
      && (pick.None? ==> d == tries && after == next + tries)
      && (pick.Some? ==>
            && d < tries && after == next + d + 1 && pick.value == Turn(n, next, d)
            && HasCapacity(channels, consumers[pick.value]))
    decreases tries
  {
    d := 0;
    var n := |consumers|;
    assert Turn(n, next, 0) == next % n;
    hide Turn, HasCapacity;
    if tries > 0 && !HasCapacity(channels, consumers[next % n]) {
      var rest := ScanFindsFirst(channels, consumers, next + 1, tries - 1);
      d := rest + 1;
      TurnAfter(n, next, rest);
      forall e: nat | e < d ensures !HasCapacity(channels, consumers[Turn(n, next, e)]) {
        if e > 0 { TurnAfter(n, next, e - 1); }
      }
    }
  }

  /**
   * The scan is complete: it finds no one exactly when no consumer has capacity. Whom it
   * finds has capacity, and is the nearest such consumer from the starting point.
   */
  lemma SelectIsCompleteAndFirst(channels: Channels, consumers: seq<Consumer>, next: nat)
    ensures var (pick, after) := Select(channels, consumers, next);
      && (pick.None? <==> forall c <- consumers :: !HasCapacity(channels, c))
      && (pick.Some? ==>
            && pick.value < |consumers| && HasCapacity(channels, consumers[pick.value])
            && after == next + Distance(|consumers|, next, pick.value) + 1
            && forall k: nat :: k < |consumers| && HasCapacity(channels, consumers[k]) ==>
                 Distance(|consumers|, next, pick.value) <= Distance(|consumers|, next, k))
  {
    var n := |consumers|;
    hide Turn, HasCapacity, Distance;
    if n > 0 {
      var d := ScanFindsFirst(channels, consumers, next, n);
      var (pick, after) := Scan(channels, consumers, next, n);
      forall k: nat | k < n && HasCapacity(channels, consumers[k])
        ensures pick.Some? && d <= Distance(n, next, k)
      {
        assert Turn(n, next, Distance(n, next, k)) == k;
      }
      if pick.Some? {
        DistanceIsUnique(n, next, d);
        assert consumers[pick.value] in consumers;
      } else {
        forall c | c in consumers ensures !HasCapacity(channels, c) {
          var k :| 0 <= k < n && consumers[k] == c;
        }
      }
    }
  }

  // Fairness over consecutive selections, whatever happens to the channels between them.

  function Picks(snapshots: seq<Channels>, consumers: seq<Consumer>, next: nat): seq<Option<nat>> {
    if snapshots == [] then []
    else
      var (pick, after) := Select(snapshots[0], consumers, next);
      [pick] + Picks(snapshots[1..], consumers, after)
  }

  /** A selection that passes over a consumer with capacity brings its turn strictly nearer. */
  lemma TurnComesNearer(channels: Channels, consumers: seq<Consumer>, next: nat, k: nat)
    requires k < |consumers| && HasCapacity(channels, consumers[k])
    ensures var (pick, after) := Select(channels, consumers, next);
      pick.Some? &&
      (pick.value != k ==> Distance(|consumers|, after, k) < Distance(|consumers|, next, k))
  {
    SelectIsCompleteAndFirst(channels, consumers, next);
    var n := |consumers|;
    var (pick, after) := Select(channels, consumers, next);
    assert consumers[k] in consumers;
    if pick.value != k {
      var d, e := Distance(n, next, pick.value), Distance(n, next, k);
      assert d != e;
      assert after + (e - d - 1) == next + e;
      DistanceIsUnique(n, after, e - d - 1);
    }
  }

  /** A consumer that always has capacity is chosen within n consecutive selections. */
  lemma {:induction false} ServedWithinN(
    snapshots: seq<Channels>, consumers: seq<Consumer>, next: nat, k: nat)
    requires k < |consumers| && Distance(|consumers|, next, k) < |snapshots|
    requires forall s <- snapshots :: HasCapacity(s, consumers[k])
    ensures Some(k) in Picks(snapshots, consumers, next)
    decreases |snapshots|
  {
    var (pick, after) := Select(snapshots[0], consumers, next);
    TurnComesNearer(snapshots[0], consumers, next, k);
    if pick != Some(k) {
      ServedWithinN(snapshots[1..], consumers, after, k);
    }
  }

  lemma RoundRobinIsFair(snapshots: seq<Channels>, consumers: seq<Consumer>, next: nat, k: nat)
    requires k < |consumers| <= |snapshots|
    requires forall s <- snapshots[..|consumers|] :: HasCapacity(s, consumers[k])
    ensures Some(k) in Picks(snapshots[..|consumers|], consumers, next)
  {
    ServedWithinN(snapshots[..|consumers|], consumers, next, k);
  }

  // One delivery pass.

  const MAX_DELIVERIES_PER_PASS: nat := 100

  datatype Sent = Sent(consumer: Consumer, message: Message)

  /** The queue and delivery tag of each delivery a connection has yet to acknowledge. */
  type Records = map<u64, seq<(Octets, u64)>>

  /** What is recorded about deliveries awaiting an acknowledgement. */
  datatype Books = Books(
    inflight: map<u64, Message>, index: map<u64, Octets>, deliveries: Records, channels: Channels)

  datatype Pass = Pass(
    messages: seq<QueueMessage>, books: Books, nextListener: nat, attempts: nat,
    sent: seq<Sent>, dropped: seq<QueueMessage>, refused: bool)

  /**
   * What a pass sees: the queue's name and consumers, the log, the open connections, and
   * whether their sinks accept the frames of the n-th attempt.
   */
  datatype Env = Env(
    name: Octets, consumers: seq<Consumer>, read: PayloadReader, connections: set<u64>,
    accepts: nat -> bool)

  function Append(d: Records, conn: u64, entry: (Octets, u64)): Records {
    d[conn := (if conn in d then d[conn] else []) + [entry]]
  }

  /** A consumer that acknowledges leaves the message inflight; one that does not, nothing. */
  function Book(b: Books, name: Octets, s: Sent): Books {
    if s.consumer.noAck then b
    else
      var id := s.message.id;
      Books(b.inflight[id := s.message], b.index[id := name],
            Append(b.deliveries, s.consumer.connId, (name, id)),
            Incremented(b.channels, s.consumer))
  }

  function Sending(env: Env, c: Consumer, attempts: nat): bool {
    c.connId in env.connections && env.accepts(attempts)
  }

  /** Handing the head of the queue to a consumer, and whether the pass goes on. */
  function Handed(env: Env, p: Pass, c: Consumer): (r: (Pass, bool))
    requires p.messages != []
    ensures r.1 ==> |r.0.messages| < |p.messages|
  {
    var rest := p.messages[1..];
    match Resolve(env.read, p.messages[0])
    case None => (p.(messages := rest, dropped := p.dropped + [p.messages[0]]), true)
    case Some(m) =>
      if !Sending(env, c, p.attempts)
      then (p.(messages := AfterPushFront(rest, Full(m)), refused := true), false)
      else
        var s := Sent(c, m);
        (p.(messages := rest, books := Book(p.books, env.name, s), attempts := p.attempts + 1,
            sent := p.sent + [s]),
         |p.sent| + 1 < MAX_DELIVERIES_PER_PASS)
  }

  /** One turn of the pass, and whether it goes on. */
  function Turned(env: Env, p: Pass): (r: (Pass, bool))
    requires p.messages != []
    ensures r.1 ==> |r.0.messages| < |p.messages|
  {
    var (pick, next) := Select(p.books.channels, env.consumers, p.nextListener);
    SelectIsCompleteAndFirst(p.books.channels, env.consumers, p.nextListener);
    var q := p.(nextListener := next);
    if pick.None? then (q, false) else Handed(env, q, env.consumers[pick.value])
  }

  function Deliver(env: Env, p: Pass): Pass
    decreases |p.messages|
  {
    if p.messages == [] then p
    else
      var (q, more) := Turned(env, p);
      if more then Deliver(env, q) else q
  }

  lemma DeliverStep(env: Env, p: Pass)
    requires p.messages != []
    ensures var (q, more) := Turned(env, p); Deliver(env, p) == if more then Deliver(env, q) else q
  {
    hide Turned;
  }

  // What a turn does, case by case.

  predicate Idle(env: Env, p: Pass, q: Pass) {
    q == p.(nextListener := q.nextListener) && forall c <- env.consumers :: !HasCapacity(p.books.channels, c)
  }

  predicate Drops(env: Env, p: Pass, q: Pass)
    requires p.messages != []
  {
    && Resolve(env.read, p.messages[0]).None?
    && q == p.(nextListener := q.nextListener, messages := p.messages[1..],
               dropped := p.dropped + [p.messages[0]])
  }

  predicate IsRefused(env: Env, p: Pass, q: Pass)
    requires p.messages != []
  {
    var r := Resolve(env.read, p.messages[0]);
    r.Some? && q == p.(nextListener := q.nextListener, refused := true,
                       messages := AfterPushFront(p.messages[1..], Full(r.value)))
  }

  predicate Sends(env: Env, p: Pass, q: Pass, c: Consumer)
    requires p.messages != []
  {
    var r := Resolve(env.read, p.messages[0]);
    && r.Some? && c in env.consumers && HasCapacity(p.books.channels, c)
    && q == p.(nextListener := q.nextListener, messages := p.messages[1..],
               books := Book(p.books, env.name, Sent(c, r.value)), attempts := p.attempts + 1,
               sent := p.sent + [Sent(c, r.value)])
  }

  lemma TurnCases(env: Env, p: Pass) returns (c: Consumer)
    requires p.messages != []
    ensures var (q, more) := Turned(env, p);
      || (!more && Idle(env, p, q))
      || (more && Drops(env, p, q))
      || (!more && IsRefused(env, p, q))
      || (Sends(env, p, q, c) && (more <==> |q.sent| < MAX_DELIVERIES_PER_PASS))
  {
    SelectIsCompleteAndFirst(p.books.channels, env.consumers, p.nextListener);
    hide HasCapacity, Select, Book, AfterPushFront, Resolve, Sending;
    var (pick, next) := Select(p.books.channels, env.consumers, p.nextListener);
    c := Consumer([], 0, 0, false);
    if pick.Some? {
      c := env.consumers[pick.value];
      assert c in env.consumers;
    }
  }

  lemma {:induction false} PassStops(env: Env, p: Pass)
    requires |p.sent| < MAX_DELIVERIES_PER_PASS
    ensures var q := Deliver(env, p);
      && |q.sent| <= MAX_DELIVERIES_PER_PASS
      && (|| q.messages == [] || q.refused || |q.sent| == MAX_DELIVERIES_PER_PASS
          || forall c <- env.consumers :: !HasCapacity(q.books.channels, c))
    decreases |p.messages|
  {
    if p.messages != [] {
      var c := TurnCases(env, p);
      var (q, more) := Turned(env, p);
      hide Turned, HasCapacity, Book, AfterPushFront, Resolve;
      if more { PassStops(env, q); }
    }
  }

  /** The consumer's channel is known, and stopped by its client or full. */
  predicate IsHeldUp(channels: Channels, c: Consumer) {
    var key := (c.connId, c.channel);
    && key in channels
    && (|| !channels[key].flowActive
        || (channels[key].prefetchCount > 0 && channels[key].unackedCount >= channels[key].prefetchCount))
  }

  /**
   * A pass stops only when the queue is empty, every consumer is held up, a sink refused, or it
   * has made its hundred deliveries.
   */
  lemma StopsOnlyWhen(env: Env, p: Pass)
    requires |p.sent| < 100
    ensures var q := Deliver(env, p);
      && |q.sent| <= 100
      && (|| q.messages == [] || q.refused || |q.sent| == 100
          || forall c <- env.consumers :: IsHeldUp(q.books.channels, c))
  {
    PassStops(env, p);
    hide Deliver;
  }

  // Fairness of a pass.

  /** The states in which a pass takes its turns. */
  function Trail(env: Env, p: Pass): seq<Pass>
    decreases |p.messages|
  {
    if p.messages == [] then []
    else
      var (q, more) := Turned(env, p);
      [p] + if more then Trail(env, q) else []
  }

  lemma TrailStep(env: Env, p: Pass)
    requires p.messages != []
    ensures var (q, more) := Turned(env, p);
      && |Trail(env, p)| > 0 && Trail(env, p)[0] == p
      && |Trail(env, p)| == if more then |Trail(env, q)| + 1 else 1
  {
    hide Turned;
  }

  lemma TrailAt(env: Env, p: Pass, i: nat)
    requires p.messages != [] && i + 1 < |Trail(env, p)|
    ensures var (q, more) := Turned(env, p);
      more && i < |Trail(env, q)| && Trail(env, p)[i + 1] == Trail(env, q)[i]
  {
    hide Turned;
  }

  function Picked(env: Env, p: Pass): Option<nat> {
    Select(p.books.channels, env.consumers, p.nextListener).0
  }

  predicate HasRoom(env: Env, p: Pass, k: nat)
    requires k < |env.consumers|
  {
    HasCapacity(p.books.channels, env.consumers[k])
  }

  predicate Readable(env: Env, ms: seq<QueueMessage>) {
    forall m <- ms :: Resolve(env.read, m).Some?
  }

  /** A turn passes over a consumer with room only when it brings that consumer's turn nearer. */
  lemma TurnPicks(env: Env, p: Pass, k: nat)
    requires p.messages != [] && k < |env.consumers| && HasRoom(env, p, k)
    ensures var (q, more) := Turned(env, p);
      Picked(env, p) == Some(k)
      || Distance(|env.consumers|, q.nextListener, k) < Distance(|env.consumers|, p.nextListener, k)
  {
    TurnComesNearer(p.books.channels, env.consumers, p.nextListener, k);
    hide Select, Distance, HasCapacity, Book, AfterPushFront, Resolve, Sending;
  }

  lemma {:induction false} PickedSoon(env: Env, p: Pass, k: nat, w: nat) returns (j: nat)
    requires k < |env.consumers| && Distance(|env.consumers|, p.nextListener, k) < w <= |Trail(env, p)|
    requires forall i: nat :: i < w ==> HasRoom(env, Trail(env, p)[i], k)
    ensures j < w && Picked(env, Trail(env, p)[j]) == Some(k)
    decreases |p.messages|
  {
    var trail := Trail(env, p);
    var (q, more) := Turned(env, p);
    TrailStep(env, p);
    assert HasRoom(env, trail[0], k);
    TurnPicks(env, p, k);
    hide Turned, Trail, Picked, Distance, HasRoom;
    j := 0;
    if Picked(env, p) != Some(k) {
      forall i: nat | i < w - 1 ensures HasRoom(env, Trail(env, q)[i], k) {
        TrailAt(env, p, i);
        assert HasRoom(env, trail[i + 1], k);
      }
      j := PickedSoon(env, q, k, w - 1);
      TrailAt(env, p, j);
      j := j + 1;
    }
  }

  /** In a pass, a consumer with room at each of n consecutive turns is picked at one of them. */
  lemma {:induction false} PickedWithinN(env: Env, p: Pass, k: nat, i: nat) returns (j: nat)
    requires k < |env.consumers| && i + |env.consumers| <= |Trail(env, p)|
    requires forall t: nat :: i <= t < i + |env.consumers| ==> HasRoom(env, Trail(env, p)[t], k)
    ensures i <= j < i + |env.consumers| && Picked(env, Trail(env, p)[j]) == Some(k)
    decreases |p.messages|
  {
    if i == 0 {
      j := PickedSoon(env, p, k, |env.consumers|);
    } else {
      var trail, q := Trail(env, p), Turned(env, p).0;
      TrailStep(env, p);
      hide Turned, Trail, Picked, HasRoom;
      forall t: nat | i - 1 <= t < i - 1 + |env.consumers| ensures HasRoom(env, Trail(env, q)[t], k) {
        TrailAt(env, p, t);
        assert HasRoom(env, trail[t + 1], k);
      }
      j := PickedWithinN(env, q, k, i - 1);
      TrailAt(env, p, j);
      j := j + 1;
    }
  }

  /** With a readable head, a turn either sends it to the consumer picked or ends the pass. */
  lemma TurnSends(env: Env, p: Pass)
    requires p.messages != [] && Resolve(env.read, p.messages[0]).Some?
    ensures var (q, more) := Turned(env, p);
      || (!more && q.sent == p.sent)
      || (&& Picked(env, p).Some? && Picked(env, p).value < |env.consumers|
          && q.messages == p.messages[1..] && |q.sent| == |p.sent| + 1
          && q.sent[|p.sent|].consumer == env.consumers[Picked(env, p).value])
  {
    SelectIsCompleteAndFirst(p.books.channels, env.consumers, p.nextListener);
    hide Select, HasCapacity, Distance, Book, AfterPushFront, Resolve, Sending;
  }

  /** The consumer picked at a turn is the one that message i of the list went to. */
  ghost predicate WentTo(env: Env, sent: seq<Sent>, i: nat, turn: Pass) {
    && i < |sent| && Picked(env, turn).Some? && Picked(env, turn).value < |env.consumers|
    && sent[i].consumer == env.consumers[Picked(env, turn).value]
  }

  lemma {:induction false} SentGrows(env: Env, p: Pass)
    ensures p.sent <= Deliver(env, p).sent
    decreases |p.messages|
  {
    if p.messages != [] {
      var c := TurnCases(env, p);
      var (q, more) := Turned(env, p);
      DeliverStep(env, p);
      assert p.sent <= q.sent;
      hide *;
      if more { SentGrows(env, q); }
    }
  }

  /** With a readable queue, message i that a pass sends goes to the consumer picked at turn i. */
  lemma {:induction false} SentAt(env: Env, p: Pass, i: nat)
    requires Readable(env, p.messages) && |p.sent| + i < |Deliver(env, p).sent|
    ensures i < |Trail(env, p)| && WentTo(env, Deliver(env, p).sent, |p.sent| + i, Trail(env, p)[i])
    decreases |p.messages|
  {
    var (q, more) := Turned(env, p);
    DeliverStep(env, p);
    TrailStep(env, p);
    TurnSends(env, p);
    SentGrows(env, q);
    ReadableRest(env, p.messages);
    hide *;
    assert |q.sent| == |p.sent| + 1;
    if i == 0 {
      SentFirst(env, p, q, Deliver(env, p).sent);
    } else {
      SentAt(env, q, i - 1);
      TrailAt(env, p, i - 1);
    }
  }

  lemma ReadableRest(env: Env, ms: seq<QueueMessage>)
    requires ms != [] && Readable(env, ms)
    ensures Readable(env, ms[1..]) && Resolve(env.read, ms[0]).Some?
  {
    assert ms[0] in ms;
    hide Resolve;
  }

  lemma SentFirst(env: Env, p: Pass, q: Pass, sent: seq<Sent>)
    requires Picked(env, p).Some? && Picked(env, p).value < |env.consumers|
    requires |q.sent| == |p.sent| + 1 && q.sent[|p.sent|].consumer == env.consumers[Picked(env, p).value]
    requires q.sent <= sent
    ensures WentTo(env, sent, |p.sent|, p)
  {
    hide Picked;
  }

  /**
   * Of any n consecutive messages that a pass over a readable queue sends to n consumers, a
   * consumer that has room at each of those turns receives one.
   */
  lemma PassIsFair(env: Env, p: Pass, k: nat, i: nat) returns (j: nat)
    requires k < |env.consumers| && Readable(env, p.messages)
    requires |p.sent| + i + |env.consumers| <= |Deliver(env, p).sent|
    requires forall t: nat :: i <= t < i + |env.consumers| && t < |Trail(env, p)| ==>
               HasRoom(env, Trail(env, p)[t], k)
    ensures i <= j < i + |env.consumers| && Deliver(env, p).sent[|p.sent| + j].consumer == env.consumers[k]
  {
    SentAt(env, p, i + |env.consumers| - 1);
    j := PickedWithinN(env, p, k, i);
    SentAt(env, p, j);
    hide *;
  }

  /** Two consumers that acknowledge nothing, one reached at any time, and a message of each sort. */
  ghost predicate Skewable(env: Env, a: Consumer, b: Consumer, bad: QueueMessage, good: QueueMessage) {
    && env.consumers == [a, b] && a.noAck && b.noAck
    && b.connId in env.connections && (forall i: nat :: env.accepts(i))
    && Resolve(env.read, bad).None? && Resolve(env.read, good).Some?
  }

  /** An unreadable message before each readable one. */
  function Alternating(bad: QueueMessage, good: QueueMessage, rounds: nat): seq<QueueMessage> {
    if rounds == 0 then [] else [bad, good] + Alternating(bad, good, rounds - 1)
  }

  /** A turn picks the next consumer when that one has room. */
  lemma NextIsPicked(channels: Channels, consumers: seq<Consumer>, next: nat)
    requires consumers != [] && HasCapacity(channels, consumers[next % |consumers|])
    ensures Select(channels, consumers, next) == (Some(next % |consumers|), next + 1)
  {
    hide HasCapacity;
  }

  lemma DropTurn(env: Env, p: Pass, k: nat)
    requires p.messages != [] && Resolve(env.read, p.messages[0]).None? && k < |env.consumers|
    requires Select(p.books.channels, env.consumers, p.nextListener) == (Some(k), p.nextListener + 1)
    ensures Turned(env, p) == (p.(nextListener := p.nextListener + 1, messages := p.messages[1..],
                                  dropped := p.dropped + [p.messages[0]]), true)
  {
    hide Resolve, Select;
  }

  lemma NoAckTurn(env: Env, p: Pass, k: nat)
    requires p.messages != [] && Resolve(env.read, p.messages[0]).Some? && k < |env.consumers|
    requires Select(p.books.channels, env.consumers, p.nextListener) == (Some(k), p.nextListener + 1)
    requires env.consumers[k].noAck && Sending(env, env.consumers[k], p.attempts)
    ensures Turned(env, p) ==
      (p.(nextListener := p.nextListener + 1, messages := p.messages[1..], attempts := p.attempts + 1,
          sent := p.sent + [Sent(env.consumers[k], Resolve(env.read, p.messages[0]).value)]),
       |p.sent| + 1 < MAX_DELIVERIES_PER_PASS)
  {
    hide Resolve, Select, Sending, Append, Incremented;
  }

  /** An unreadable head on the turn of the first consumer is dropped. */
  lemma SkewedDrop(
    env: Env, p: Pass, a: Consumer, b: Consumer, bad: QueueMessage, good: QueueMessage, rest: seq<QueueMessage>)
    returns (x: Pass)
    requires Skewable(env, a, b, bad, good) && HasCapacity(p.books.channels, a)
    requires p.messages == [bad] + rest && p.nextListener % 2 == 0
    ensures x == p.(nextListener := p.nextListener + 1, messages := rest, dropped := p.dropped + [bad])
    ensures Deliver(env, p) == Deliver(env, x)
  {
    hide Deliver, Turned, HasCapacity, Resolve, Sending, Select;
    NextIsPicked(p.books.channels, env.consumers, p.nextListener);
    DropTurn(env, p, 0);
    DeliverStep(env, p);
    x := Turned(env, p).0;
    assert p.messages[1..] == rest;
  }

  /** A readable head on the turn of the second consumer is sent to it. */
  lemma SkewedSend(
    env: Env, p: Pass, a: Consumer, b: Consumer, bad: QueueMessage, good: QueueMessage, rest: seq<QueueMessage>)
    returns (y: Pass)
    requires Skewable(env, a, b, bad, good) && HasCapacity(p.books.channels, b)
    requires p.messages == [good] + rest && p.nextListener % 2 == 1
    ensures y.messages == rest && y.nextListener == p.nextListener + 1 && y.books == p.books
    ensures |y.sent| == |p.sent| + 1 && p.sent <= y.sent && y.sent[|p.sent|].consumer == b
    ensures Deliver(env, p) == if |y.sent| < MAX_DELIVERIES_PER_PASS then Deliver(env, y) else y
  {
    assert Sending(env, b, p.attempts);
    hide Deliver, Turned, HasCapacity, Resolve, Sending, Select;
    NextIsPicked(p.books.channels, env.consumers, p.nextListener);
    NoAckTurn(env, p, 1);
    DeliverStep(env, p);
    y := Turned(env, p).0;
    assert p.messages[1..] == rest;
  }

  lemma SkewedRound(
    env: Env, p: Pass, a: Consumer, b: Consumer, bad: QueueMessage, good: QueueMessage, rest: seq<QueueMessage>)
    returns (y: Pass)
    requires Skewable(env, a, b, bad, good)
    requires HasCapacity(p.books.channels, a) && HasCapacity(p.books.channels, b)
    requires p.messages == [bad, good] + rest && p.nextListener % 2 == 0
    ensures y.messages == rest && y.nextListener % 2 == 0 && y.books == p.books
    ensures |y.sent| == |p.sent| + 1 && p.sent <= y.sent && y.sent[|p.sent|].consumer == b
    ensures Deliver(env, p) == if |y.sent| < MAX_DELIVERIES_PER_PASS then Deliver(env, y) else y
  {
    hide *;
    assert [bad] + ([good] + rest) == [bad, good] + rest;
    var x := SkewedDrop(env, p, a, b, bad, good, [good] + rest);
    y := SkewedSend(env, x, a, b, bad, good, rest);
  }

  /** From p to r a queue was emptied, and so many messages were sent, all to one consumer. */
  ghost predicate SentOnlyTo(c: Consumer, p: Pass, r: Pass, n: nat) {
    && p.sent <= r.sent && |r.sent| == |p.sent| + n
    && (forall i :: |p.sent| <= i < |r.sent| ==> r.sent[i].consumer == c)
    && r.books == p.books && r.messages == []
  }

  lemma SentOneMore(c: Consumer, p: Pass, y: Pass, r: Pass, n: nat)
    requires |y.sent| == |p.sent| + 1 && p.sent <= y.sent && y.sent[|p.sent|].consumer == c
    requires y.books == p.books && SentOnlyTo(c, y, r, n)
    ensures SentOnlyTo(c, p, r, n + 1)
  {
  }

  /**
   * Unreadable messages use up turns: when they fall on the turns of one of two consumers,
   * a pass sends every message to the other, although both have room throughout.
   */
  lemma {:induction false} UnreadableSkewsTurns(
    env: Env, p: Pass, a: Consumer, b: Consumer, bad: QueueMessage, good: QueueMessage, rounds: nat)
    requires Skewable(env, a, b, bad, good)
    requires HasCapacity(p.books.channels, a) && HasCapacity(p.books.channels, b)
    requires p.messages == Alternating(bad, good, rounds) && p.nextListener % 2 == 0
    requires |p.sent| + rounds < MAX_DELIVERIES_PER_PASS
    ensures SentOnlyTo(b, p, Deliver(env, p), rounds)
    decreases rounds
  {
    hide Resolve, HasCapacity, Skewable, Turned;
    if rounds == 0 {
      assert p.messages == [] && SentOnlyTo(b, p, p, 0);
    } else {
      var rest := Alternating(bad, good, rounds - 1);
      assert p.messages == [bad, good] + rest;
      hide *;
      var y := SkewedRound(env, p, a, b, bad, good, rest);
      UnreadableSkewsTurns(env, y, a, b, bad, good, rounds - 1);
      SentOneMore(b, p, y, Deliver(env, p), rounds - 1);
    }
  }

  // Conservation.

  function Ids(ms: seq<QueueMessage>): multiset<u64> {
    if ms == [] then multiset{} else multiset{ms[0].Id()} + Ids(ms[1..])
  }

  function NoAckIds(sent: seq<Sent>): multiset<u64> {
    if sent == [] then multiset{}
    else
      var s := sent[|sent| - 1];
      NoAckIds(sent[..|sent| - 1]) + if s.consumer.noAck then multiset{s.message.id} else multiset{}
  }

  /** Ready, inflight, sent without acknowledgement, and dropped as unreadable. */
  function Total(p: Pass): multiset<u64> {
    Ids(p.messages) + multiset(p.books.inflight.Keys) + NoAckIds(p.sent) + Ids(p.dropped)
  }

  ghost predicate Distinct(ids: multiset<u64>) {
    forall id: u64 :: ids[id] <= 1
  }

  /** The ids held: distinct when none is ready twice, or both ready and inflight. */
  function Held(p: Pass): multiset<u64> {
    Ids(p.messages) + multiset(p.books.inflight.Keys)
  }

  lemma {:induction false} IdsJoin(a: seq<QueueMessage>, b: seq<QueueMessage>)
    ensures Ids(a + b) == Ids(a) + Ids(b)
  {
    if a == [] {
      assert a + b == b;
    } else {
      assert (a + b)[1..] == a[1..] + b;
      IdsJoin(a[1..], b);
    }
  }

  lemma IdsAround(a: seq<QueueMessage>, b: seq<QueueMessage>, m: QueueMessage)
    ensures Ids(a + [m] + b) == multiset{m.Id()} + Ids(a + b)
  {
    IdsJoin(a + [m], b);
    IdsJoin(a, [m]);
    IdsJoin(a, b);
    assert Ids([m]) == multiset{m.Id()};
  }

  lemma IdsPushFront(s: seq<QueueMessage>, m: QueueMessage)
    ensures Ids(AfterPushFront(s, m)) == multiset{m.Id()} + Ids(s)
  {
    var k := Leading(s, m.Priority() + 1);
    IdsAround(s[..k], s[k..], m);
    assert s[..k] + s[k..] == s;
    hide Ids, Leading;
  }

  lemma HeadId(ms: seq<QueueMessage>)
    requires ms != []
    ensures Ids(ms) == multiset{ms[0].Id()} + Ids(ms[1..])
  {
  }

  /** The total stays, and the ids held lose at most the head's. */
  lemma TurnConserves(env: Env, p: Pass)
    requires p.messages != [] && Distinct(Held(p))
    ensures var q := Turned(env, p).0; Total(q) == Total(p) && Held(q) <= Held(p)
  {
    var c := TurnCases(env, p);
    var (q, more) := Turned(env, p);
    hide *;
    if Drops(env, p, q) {
      DropConserves(env, p, q);
    } else if IsRefused(env, p, q) {
      RefusalConserves(env, p, q);
    } else if Sends(env, p, q, c) {
      SendConserves(env, p, q, c);
    } else {
      IdleConserves(env, p, q);
    }
  }

  lemma IdleConserves(env: Env, p: Pass, q: Pass)
    requires Idle(env, p, q)
    ensures Total(q) == Total(p) && Held(q) <= Held(p)
  {
  }

  lemma DropConserves(env: Env, p: Pass, q: Pass)
    requires p.messages != [] && Drops(env, p, q)
    ensures Total(q) == Total(p) && Held(q) <= Held(p)
  {
    HeadId(p.messages);
    IdsJoin(p.dropped, [p.messages[0]]);
    assert Ids([p.messages[0]]) == multiset{p.messages[0].Id()};
    hide Ids, Resolve;
  }

  lemma RefusalConserves(env: Env, p: Pass, q: Pass)
    requires p.messages != [] && IsRefused(env, p, q)
    ensures Total(q) == Total(p) && Held(q) <= Held(p)
  {
    HeadId(p.messages);
    IdsPushFront(p.messages[1..], Full(Resolve(env.read, p.messages[0]).value));
    hide Ids, Resolve, AfterPushFront;
  }

  lemma NoAckIdsSnoc(sent: seq<Sent>, s: Sent)
    ensures NoAckIds(sent + [s])
         == NoAckIds(sent) + if s.consumer.noAck then multiset{s.message.id} else multiset{}
  {
    assert (sent + [s])[..|sent|] == sent;
  }

  lemma OneMoreInflight(inflight: map<u64, Message>, id: u64, m: Message)
    requires id !in inflight
    ensures multiset(inflight[id := m].Keys) == multiset(inflight.Keys) + multiset{id}
  {
    assert inflight[id := m].Keys == inflight.Keys + {id};
  }

  /** An id moves from the ready ones to the inflight ones, or to those sent without acknowledgement. */
  lemma IdMoves(
    id: multiset<u64>, ready: multiset<u64>, inflight: multiset<u64>, gone: multiset<u64>, dropped: multiset<u64>)
    ensures ready + (inflight + id) + gone + dropped == (id + ready) + inflight + gone + dropped
    ensures ready + inflight + (gone + id) + dropped == (id + ready) + inflight + gone + dropped
    ensures ready + (inflight + id) <= (id + ready) + inflight && ready + inflight <= (id + ready) + inflight
  {
  }

  lemma SendConserves(env: Env, p: Pass, q: Pass, c: Consumer)
    requires p.messages != [] && Distinct(Held(p)) && Sends(env, p, q, c)
    ensures Total(q) == Total(p) && Held(q) <= Held(p)
  {
    var id, s := p.messages[0].Id(), q.sent[|q.sent| - 1];
    var ready, inflight := Ids(p.messages[1..]), p.books.inflight;
    HeadId(p.messages);
    HeadIsNotInflight(p);
    NoAckIdsSnoc(p.sent, s);
    IdMoves(multiset{id}, ready, multiset(inflight.Keys), NoAckIds(p.sent), Ids(p.dropped));
    assert q.books == Book(p.books, env.name, s) && s.message.id == id;
    if c.noAck {
      hide Ids, NoAckIds, Resolve, Distinct, HasCapacity;
    } else {
      OneMoreInflight(inflight, id, s.message);
      hide Ids, NoAckIds, Resolve, Distinct, HasCapacity, Append, Incremented;
      assert NoAckIds(q.sent) == NoAckIds(p.sent) + multiset{};
    }
  }

  lemma HeadIsNotInflight(p: Pass)
    requires p.messages != [] && Distinct(Held(p))
    ensures p.messages[0].Id() !in p.books.inflight
  {
    HeadId(p.messages);
    hide Ids;
    assert Held(p)[p.messages[0].Id()] <= 1;
  }

  /**
   * A pass loses and duplicates nothing: each id that was ready or inflight is afterwards in
   * exactly one of ready, inflight, sent without acknowledgement, or dropped as unreadable.
   */
  lemma {:induction false} PassConserves(env: Env, p: Pass)
    requires Distinct(Held(p))
    ensures Total(Deliver(env, p)) == Total(p) && Distinct(Held(Deliver(env, p)))
    decreases |p.messages|
  {
    if p.messages != [] {
      TurnConserves(env, p);
      DeliverStep(env, p);
      hide Turned, Deliver, Total, Held;
      var (q, more) := Turned(env, p);
      if more { PassConserves(env, q); }
    }
  }

  // Prefetch safety.

  /** How many of the messages sent await an acknowledgement on a channel. */
  function AwaitedOn(sent: seq<Sent>, key: (u64, u16)): nat {
    if sent == [] then 0
    else
      var s := sent[|sent| - 1];
      AwaitedOn(sent[..|sent| - 1], key)
      + if !s.consumer.noAck && (s.consumer.connId, s.consumer.channel) == key then 1 else 0
  }

  /** A channel's settings stay; its counter follows what was sent and stays within the limit. */
  ghost predicate Respects(before: Channel, after: Channel, awaited: nat) {
    && after == before.(unackedCount := after.unackedCount)
    && after.unackedCount == (before.unackedCount + awaited) % TWO_16
    && (!before.flowActive ==> awaited == 0)
    && (before.prefetchCount != 0 && before.unackedCount <= before.prefetchCount ==>
          after.unackedCount == before.unackedCount + awaited && after.unackedCount <= before.prefetchCount)
  }

  /** A channel respects its limit in a state of the pass, since `base` were awaited on it. */
  ghost predicate Within(p: Pass, key: (u64, u16), before: Channel, base: nat) {
    && key in p.books.channels && base <= AwaitedOn(p.sent, key)
    && Respects(before, p.books.channels[key], AwaitedOn(p.sent, key) - base)
  }

  lemma OneMoreAwaited(before: Channel, ch: Channel, awaited: nat)
    requires Respects(before, ch, awaited) && CanDeliver(ch)
    ensures Respects(before, ch.(unackedCount := (ch.unackedCount + 1) % TWO_16), awaited + 1)
  {
  }

  lemma AwaitedOnSnoc(sent: seq<Sent>, s: Sent, key: (u64, u16))
    ensures AwaitedOn(sent + [s], key)
         == AwaitedOn(sent, key)
            + if !s.consumer.noAck && (s.consumer.connId, s.consumer.channel) == key then 1 else 0
  {
    assert (sent + [s])[..|sent|] == sent;
  }

  lemma TurnRespectsPrefetch(env: Env, p: Pass, key: (u64, u16), before: Channel, base: nat)
    requires p.messages != [] && Within(p, key, before, base)
    ensures Within(Turned(env, p).0, key, before, base)
  {
    var c := TurnCases(env, p);
    var q := Turned(env, p).0;
    if Sends(env, p, q, c) {
      SendRespectsPrefetch(env, p, q, c, key, before, base);
      hide *;
    } else {
      hide Within, Turned;
      StaysWithin(p, q, key, before, base);
    }
  }

  lemma StaysWithin(p: Pass, q: Pass, key: (u64, u16), before: Channel, base: nat)
    requires q.books == p.books && q.sent == p.sent && Within(p, key, before, base)
    ensures Within(q, key, before, base)
  {
  }

  lemma SendRespectsPrefetch(
    env: Env, p: Pass, q: Pass, c: Consumer, key: (u64, u16), before: Channel, base: nat)
    requires p.messages != [] && Within(p, key, before, base) && Sends(env, p, q, c)
    ensures Within(q, key, before, base)
  {
    AwaitedOnSnoc(p.sent, q.sent[|q.sent| - 1], key);
    assert q.books.channels == if c.noAck then p.books.channels else Incremented(p.books.channels, c);
    hide Resolve, Append, Book, Respects, AwaitedOn;
    if !c.noAck && (c.connId, c.channel) == key {
      OneMoreAwaited(before, p.books.channels[key], AwaitedOn(p.sent, key) - base);
    }
  }

  /**
   * For a known channel, a pass adds to the unacknowledged count exactly the messages it sent
   * there for acknowledgement, never takes it over a nonzero prefetch limit it respected
   * before, and adds nothing while the client has stopped the flow.
   */
  lemma {:induction false} PassRespectsPrefetch(
    env: Env, p: Pass, key: (u64, u16), before: Channel, base: nat)
    requires Within(p, key, before, base)
    ensures Within(Deliver(env, p), key, before, base)
    decreases |p.messages|
  {
    if p.messages != [] {
      TurnRespectsPrefetch(env, p, key, before, base);
      DeliverStep(env, p);
      hide *;
      var (q, more) := Turned(env, p);
      if more { PassRespectsPrefetch(env, q, key, before, base); }
    }
  }

  lemma PrefetchIsSafe(env: Env, p: Pass, key: (u64, u16))
    requires key in p.books.channels && p.sent == []
    ensures var q := Deliver(env, p);
      key in q.books.channels
      && Respects(p.books.channels[key], q.books.channels[key], AwaitedOn(q.sent, key))
  {
    assert Within(p, key, p.books.channels[key], 0);
    PassRespectsPrefetch(env, p, key, p.books.channels[key], 0);
    hide Deliver, AwaitedOn, Respects;
  }

  // What is sent, and what is recorded.

  function ResolvedAll(read: PayloadReader, ms: seq<QueueMessage>): seq<Message> {
    if ms == [] then []
    else
      var r := Resolve(read, ms[0]);
      (if r.Some? then [r.value] else []) + ResolvedAll(read, ms[1..])
  }

  function Unreadable(read: PayloadReader, ms: seq<QueueMessage>): seq<QueueMessage> {
    if ms == [] then []
    else (if Resolve(read, ms[0]).None? then [ms[0]] else []) + Unreadable(read, ms[1..])
  }

  function MessagesOf(sent: seq<Sent>): seq<Message> {
    if sent == [] then [] else [sent[0].message] + MessagesOf(sent[1..])
  }

  function BookAll(b: Books, name: Octets, sent: seq<Sent>): Books
    decreases |sent|
  {
    if sent == [] then b else BookAll(Book(b, name, sent[0]), name, sent[1..])
  }

  /**
   * What a pass from p to q did with the first n messages: `sent` of them went out in order,
   * each recorded in the books, the unreadable ones were dropped, and the rest is untouched;
   * after a refusal the head has its payload fetched.
   */
  ghost predicate TookFront(env: Env, p: Pass, q: Pass, sent: seq<Sent>, n: nat) {
    && n <= |p.messages| && q.sent == p.sent + sent
    && q.attempts == p.attempts + |sent|
    && MessagesOf(sent) == ResolvedAll(env.read, p.messages[..n])
    && (forall s <- sent :: s.consumer in env.consumers)
    && q.dropped == p.dropped + Unreadable(env.read, p.messages[..n])
    && q.books == BookAll(p.books, env.name, sent)
    && (!q.refused ==> q.messages == p.messages[n..])
    && (q.refused ==>
          && n < |p.messages| && Resolve(env.read, p.messages[n]).Some?
          && q.messages == [Full(Resolve(env.read, p.messages[n]).value)] + p.messages[n + 1..])
  }

  /** Messages leave from the front, in order; nothing behind the last one taken changes. */
  lemma {:induction false} PassTakesFront(env: Env, p: Pass) returns (sent: seq<Sent>, n: nat)
    requires Descending(p.messages) && !p.refused
    ensures TookFront(env, p, Deliver(env, p), sent, n)
    decreases |p.messages|
  {
    sent, n := [], 0;
    NothingTaken(env, p);
    if p.messages != [] {
      var c := TurnCases(env, p);
      var (q, more) := Turned(env, p);
      var rest := p.messages[1..];
      HeadIsHighest(p.messages);
      assert more ==> Deliver(env, p) == Deliver(env, q);
      assert !more ==> Deliver(env, p) == q;
      hide Deliver, Turned, TookFront, Idle;
      if Drops(env, p, q) {
        sent, n := PassTakesFront(env, q);
        TookAfterDrop(env, p, q, Deliver(env, q), sent, n);
        n := n + 1;
      } else if IsRefused(env, p, q) {
        TookRefused(env, p, q);
      } else if Sends(env, p, q, c) {
        if more {
          sent, n := PassTakesFront(env, q);
        } else {
          NothingTaken(env, q);
        }
        TookAfterSend(env, p, q, c, Deliver(env, p), sent, n);
        sent, n := [q.sent[|q.sent| - 1]] + sent, n + 1;
      } else {
        TookIdle(env, p, q);
      }
    }
  }

  lemma NothingTaken(env: Env, p: Pass)
    requires !p.refused
    ensures TookFront(env, p, p, [], 0)
  {
    assert p.messages[..0] == [];
    assert p.sent + [] == p.sent && p.dropped + [] == p.dropped;
  }

  lemma TookIdle(env: Env, p: Pass, q: Pass)
    requires !p.refused && Idle(env, p, q)
    ensures TookFront(env, p, q, [], 0)
  {
    NothingTaken(env, p);
    hide ResolvedAll, Unreadable;
  }

  lemma TookRefused(env: Env, p: Pass, q: Pass)
    requires p.messages != [] && Descending(p.messages) && IsRefused(env, p, q)
    ensures TookFront(env, p, q, [], 0)
  {
    var m := Full(Resolve(env.read, p.messages[0]).value);
    HeadIsHighest(p.messages);
    FrontOfHighest(p.messages[1..], m);
    assert p.messages[..0] == [];
    assert p.sent + [] == p.sent && p.dropped + [] == p.dropped;
    hide AfterPushFront, Descending;
  }

  /** A message at least as high as everything else goes to the very front. */
  lemma FrontOfHighest(s: seq<QueueMessage>, m: QueueMessage)
    requires forall x <- s :: x.Priority() <= m.Priority()
    ensures AfterPushFront(s, m) == [m] + s
  {
    assert s != [] ==> s[0] in s;
    assert Leading(s, m.Priority() + 1) == 0;
  }

  lemma TakeOneMore(env: Env, ms: seq<QueueMessage>, n: nat)
    requires ms != [] && n < |ms|
    ensures var r := Resolve(env.read, ms[0]);
      && ResolvedAll(env.read, ms[..n + 1])
         == (if r.Some? then [r.value] else []) + ResolvedAll(env.read, ms[1..][..n])
      && Unreadable(env.read, ms[..n + 1])
         == (if r.None? then [ms[0]] else []) + Unreadable(env.read, ms[1..][..n])
  {
    assert ms[..n + 1][1..] == ms[1..][..n] && ms[..n + 1][0] == ms[0];
  }

  lemma TookAfterDrop(env: Env, p: Pass, q: Pass, r: Pass, sent: seq<Sent>, n: nat)
    requires p.messages != [] && Drops(env, p, q) && TookFront(env, q, r, sent, n)
    ensures TookFront(env, p, r, sent, n + 1)
  {
    TakeOneMore(env, p.messages, n);
    hide Resolve, ResolvedAll, Unreadable, BookAll, MessagesOf;
    var cut := Unreadable(env.read, q.messages[..n]);
    assert p.dropped + [p.messages[0]] + cut == p.dropped + ([p.messages[0]] + cut);
    assert [] + ResolvedAll(env.read, q.messages[..n]) == ResolvedAll(env.read, q.messages[..n]);
  }

  lemma TookAfterSend(env: Env, p: Pass, q: Pass, c: Consumer, r: Pass, sent: seq<Sent>, n: nat)
    requires p.messages != [] && Sends(env, p, q, c) && TookFront(env, q, r, sent, n)
    ensures TookFront(env, p, r, [q.sent[|q.sent| - 1]] + sent, n + 1)
  {
    TakeOneMore(env, p.messages, n);
    var s := q.sent[|q.sent| - 1];
    var all := [s] + sent;
    assert all[1..] == sent;
    assert BookAll(p.books, env.name, all) == BookAll(q.books, env.name, sent);
    assert MessagesOf(all) == [s.message] + MessagesOf(sent);
    hide Resolve, ResolvedAll, Unreadable, BookAll, Book, MessagesOf, HasCapacity;
    assert p.sent + [s] + sent == p.sent + all;
    var cut := Unreadable(env.read, q.messages[..n]);
    assert [] + cut == cut;
  }

  // Every inflight message is on the books.

  /** Messages are inflight under their own ids. */
  ghost predicate Keyed(inflight: map<u64, Message>) {
    forall id <- inflight :: inflight[id].id == id
  }

  /** Records are only ever added. */
  ghost predicate Grows(d: Records, e: Records) {
    forall conn <- d :: conn in e && forall x <- d[conn] :: x in e[conn]
  }

  /** Some connection is answerable for a message of a queue. */
  ghost predicate Answerable(d: Records, name: Octets, id: u64) {
    exists conn: u64 :: conn in d && (name, id) in d[conn]
  }

  ghost predicate Indexed(b: Books, name: Octets, id: u64) {
    id in b.index && b.index[id] == name
  }

  /** The connection a message went to answers for it. */
  ghost predicate Holds(d: Records, name: Octets, s: Sent) {
    s.consumer.connId in d && (name, s.message.id) in d[s.consumer.connId]
  }

  /** How the books change: records stay, and whatever is newly inflight is on them. */
  ghost predicate Extends(b: Books, r: Books, name: Octets) {
    && Grows(b.deliveries, r.deliveries)
    && (forall id: u64 :: Indexed(b, name, id) ==> Indexed(r, name, id))
    && (Keyed(b.inflight) ==> Keyed(r.inflight))
    && forall id <- r.inflight ::
         id in b.inflight || (Indexed(r, name, id) && Answerable(r.deliveries, name, id))
  }

  lemma AnswerableStays(d: Records, e: Records, name: Octets, id: u64)
    requires Answerable(d, name, id) && Grows(d, e)
    ensures Answerable(e, name, id)
  {
    var conn :| conn in d && (name, id) in d[conn];
    assert conn in e && (name, id) in e[conn];
  }

  lemma BookExtends(b: Books, name: Octets, s: Sent)
    ensures Extends(b, Book(b, name, s), name)
    ensures !s.consumer.noAck ==> Holds(Book(b, name, s).deliveries, name, s)
  {
    hide Incremented;
    if !s.consumer.noAck {
      var r, conn := Book(b, name, s), s.consumer.connId;
      assert conn in r.deliveries && (name, s.message.id) in r.deliveries[conn];
    }
  }

  lemma ExtendsTrans(b: Books, c: Books, r: Books, name: Octets)
    requires Extends(b, c, name) && Extends(c, r, name)
    ensures Extends(b, r, name)
  {
    hide Keyed, Indexed, Answerable;
    forall id | id in r.inflight && id !in b.inflight
      ensures Indexed(r, name, id) && Answerable(r.deliveries, name, id)
    {
      if id in c.inflight { AnswerableStays(c.deliveries, r.deliveries, name, id); }
    }
  }

  /** Booking what a pass sent extends the books, with a record of each message to acknowledge. */
  lemma {:induction false} BookAllExtends(b: Books, name: Octets, sent: seq<Sent>)
    ensures var r := BookAll(b, name, sent);
      && Extends(b, r, name)
      && forall s <- sent :: !s.consumer.noAck ==> Holds(r.deliveries, name, s)
    decreases |sent|
  {
    if sent != [] {
      var x, r := Book(b, name, sent[0]), BookAll(b, name, sent);
      BookExtends(b, name, sent[0]);
      BookAllExtends(x, name, sent[1..]);
      assert BookAll(x, name, sent[1..]) == r;
      ExtendsTrans(b, x, r, name);
      assert Grows(x.deliveries, r.deliveries);
      hide Book, BookAll, Extends;
      forall s | s in sent && !s.consumer.noAck ensures Holds(r.deliveries, name, s) {
        if s != sent[0] { assert s in sent[1..]; }
      }
    }
  }

  /** Each inflight id leads to this queue, and some connection is answerable for it. */
  ghost predicate Recorded(b: Books, name: Octets) {
    forall id <- b.inflight :: Indexed(b, name, id) && Answerable(b.deliveries, name, id)
  }

  /** After a pass every inflight message of the queue is still on the books. */
  lemma PassKeepsRecorded(env: Env, p: Pass)
    requires Recorded(p.books, env.name) && Descending(p.messages) && !p.refused
    ensures Recorded(Deliver(env, p).books, env.name)
  {
    var sent, n := PassTakesFront(env, p);
    var r := Deliver(env, p).books;
    BookAllExtends(p.books, env.name, sent);
    hide Deliver, BookAll, Indexed, Answerable;
    forall id | id in r.inflight && id in p.books.inflight ensures Answerable(r.deliveries, env.name, id) {
      AnswerableStays(p.books.deliveries, r.deliveries, env.name, id);
    }
  }
}
