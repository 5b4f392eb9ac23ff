// What a closed connection leaves alone, and what follows for the others: over any run of
// delivery passes and disconnects, a connection that stays keeps its channels, and its prefetch
// limits are respected.
module Disconnects {
  import opened Bytes
  import opened Messages
  import opened PriorityQueues
  import opened Delivery
  import opened Brokers

  // Field by field.

  /** The connection and its channels are gone, and every other channel is as it was. */
  lemma RemovalKeepsChannels(b: Broker, conn: u64, key: (u64, u16))
    ensures var r := Removed(b, conn);
      && r.connections == b.connections - {conn}
      && (key in r.channels <==> key in b.channels && key.0 != conn)
      && (key in r.channels ==> r.channels[key] == b.channels[key])
  {
    hide RequeueAll, Members, Cleaned, TagsOf, TagSet;
  }

  /** What the other connections declared exclusive, and what they have to acknowledge, stays. */
  lemma RemovalKeepsRecords(b: Broker, conn: u64, other: u64)
    ensures var r := Removed(b, conn);
      && (other in r.exclusiveQueues <==> other in b.exclusiveQueues && other != conn)
      && (other in r.exclusiveQueues ==> r.exclusiveQueues[other] == b.exclusiveQueues[other])
      && (other in r.deliveries <==> other in b.deliveries && other != conn)
      && (other in r.deliveries ==> r.deliveries[other] == b.deliveries[other])
  {
    hide RequeueAll, Members, Cleaned, TagsOf, TagSet;
  }

  lemma {:induction false} TagSetMembers(ds: seq<(Octets, u64)>, tag: u64)
    ensures tag in TagSet(ds) <==> exists name: Octets :: (name, tag) in ds
  {
    if ds != [] {
      TagSetMembers(ds[1..], tag);
      assert forall d :: d in ds <==> d == ds[0] || d in ds[1..];
      assert (ds[0].0, ds[0].1) == ds[0];
    }
  }

  /** A delivery tag is forgotten exactly when the connection has a record of it. */
  lemma RemovalKeepsIndex(b: Broker, conn: u64, tag: u64)
    ensures var r := Removed(b, conn);
      && (tag in r.index <==>
            tag in b.index && !(conn in b.deliveries && exists name: Octets :: (name, tag) in b.deliveries[conn]))
      && (tag in r.index ==> r.index[tag] == b.index[tag])
  {
    TagSetMembers(RecordsOf(b, conn), tag);
    hide RequeueAll, Members, Cleaned, TagsOf, TagSet;
  }

  lemma {:induction false} RequeueTagsKeepsTags(q: QueueState, tags: seq<u64>)
    ensures RequeueTags(q, tags).consumerTags == q.consumerTags
    decreases |tags|
  {
    if tags != [] {
      RequeueTagsKeepsTags(Requeue(q, tags[0]), tags[1..]);
    }
  }

  /** The queue was not declared exclusive by the connection, and lists the tag as one of its consumers. */
  predicate ListsFor(b: Broker, conn: u64, name: Octets, tag: Octets) {
    && name in b.queues
    && !(conn in b.exclusiveQueues && name in b.exclusiveQueues[conn])
    && tag in b.queues[name].consumerTags && b.queues[name].consumerTags[tag].0 == conn
  }

  lemma ListedBefore(b: Broker, conn: u64, name: Octets, tag: Octets)
    ensures var x := Requeued(WithoutConnection(b, conn), conn);
      name in x.queues && tag in TagsOf(x.queues[name], conn) <==> ListsFor(b, conn, name, tag)
  {
    hide RequeueAll, RequeueTags, TagsIn, TagSet;
    var w := WithoutConnection(b, conn);
    RequeueAllByQueue(w.queues, RecordsOf(w, conn), name);
    if name in w.queues {
      RequeueTagsKeepsTags(w.queues[name], TagsIn(RecordsOf(w, conn), name));
    }
  }

  /** A consumer's queue is forgotten exactly when a queue lists it as the connection's. */
  lemma RemovalKeepsConsumers(b: Broker, conn: u64, tag: Octets)
    ensures var r := Removed(b, conn);
      && (tag in r.consumerIndex <==>
            tag in b.consumerIndex && !exists name: Octets :: ListsFor(b, conn, name, tag))
      && (tag in r.consumerIndex ==> r.consumerIndex[tag] == b.consumerIndex[tag])
  {
    var x := Requeued(WithoutConnection(b, conn), conn);
    forall name: Octets
      ensures name in x.queues && tag in TagsOf(x.queues[name], conn) <==> ListsFor(b, conn, name, tag)
    {
      ListedBefore(b, conn, name, tag);
    }
    assert x.consumerIndex == b.consumerIndex;
    hide Requeued, WithoutConnection, Cleaned, TagsOf, ListsFor;
  }

  /** A disconnect gives and takes no room on the channels of anyone else. */
  lemma OthersKeepTheirRoom(b: Broker, conn: u64, c: Consumer)
    requires c.connId != conn
    ensures HasCapacity(Removed(b, conn).channels, c) <==> HasCapacity(b.channels, c)
  {
    RemovalKeepsChannels(b, conn, (c.connId, c.channel));
    hide Removed;
  }

  // The order in which messages come back.

  /** What was unacknowledged of one level, the last delivered first. */
  function LastFirst(inflight: map<u64, Message>, tags: seq<u64>, level: byte): seq<QueueMessage> {
    if tags == [] then []
    else
      LastFirst(inflight - {tags[0]}, tags[1..], level)
      + if tags[0] in inflight && inflight[tags[0]].priority == level then [Full(inflight[tags[0]])] else []
  }

  lemma {:induction false} RequeueTagsInFront(q: QueueState, tags: seq<u64>, level: byte)
    requires Descending(q.messages)
    ensures Descending(RequeueTags(q, tags).messages)
    ensures Level(RequeueTags(q, tags).messages, level)
         == LastFirst(q.inflight, tags, level) + Level(q.messages, level)
    decreases |tags|
  {
    if tags != [] {
      var next := Requeue(q, tags[0]);
      if tags[0] in q.inflight {
        PushIsStable(q.messages, Full(q.inflight[tags[0]]));
      } else {
        assert q.inflight - {tags[0]} == q.inflight;
      }
      RequeueTagsInFront(next, tags[1..], level);
      hide Descending, AfterPushFront, Level;
      Regrouped(LastFirst(next.inflight, tags[1..], level), q, tags[0], level);
    }
  }

  lemma Regrouped(front: seq<QueueMessage>, q: QueueState, tag: u64, level: byte)
    ensures tag in q.inflight ==>
      var m := Full(q.inflight[tag]);
      front + ([m] + Level(q.messages, level)) == (front + [m]) + Level(q.messages, level)
    ensures front + Level(q.messages, level) == (front + []) + Level(q.messages, level)
  {
    hide Level;
  }

  /**
   * What a closed connection had not acknowledged comes back in front of the ready messages of
   * the same priority.
   */
  lemma RemovalRequeuesInFront(b: Broker, conn: u64, name: Octets, level: byte)
    requires forall n <- b.queues :: Keyed(b.queues[n].inflight)
    requires name in Removed(b, conn).queues && name in b.queues && Descending(b.queues[name].messages)
    ensures Level(Removed(b, conn).queues[name].messages, level)
         == LastFirst(b.queues[name].inflight, TagsIn(RecordsOf(b, conn), name), level)
            + Level(b.queues[name].messages, level)
  {
    RemovedQueue(b, conn, name);
    hide Removed, RequeueTags, OtherListeners, Survives, Level, LastFirst, TagsIn, Descending, Keyed;
    RequeueTagsInFront(b.queues[name], TagsIn(RecordsOf(b, conn), name), level);
  }

  // Prefetch limits over whole runs.

  /** How many of the messages that an operation sends await an acknowledgement on a channel. */
  function AwaitedIn(b: Broker, op: Op, key: (u64, u16)): nat {
    if op.DisconnectOp? || op.queue !in b.queues then 0
    else AwaitedOn(Deliver(EnvOf(b, op.queue, op.read, op.accepts), PassOver(b, op.queue)).sent, key)
  }

  /** How many of those sent during a run do. */
  function AwaitedOver(b: Broker, name: Octets, ops: seq<Op>, key: (u64, u16)): nat {
    if ops == [] then 0
    else
      var before := ops[..|ops| - 1];
      AwaitedOver(b, name, before, key) + AwaitedIn(Run(b, name, before).broker, ops[|ops| - 1], key)
  }

  lemma RespectsTrans(a: Channel, b: Channel, c: Channel, m: nat, n: nat)
    requires Respects(a, b, m) && Respects(b, c, n)
    ensures Respects(a, c, m + n)
  {
  }

  /** A channel is open after some steps as it was before, but for what awaits acknowledgement on it. */
  ghost predicate StaysOpen(b: Broker, c: Broker, key: (u64, u16), awaited: nat) {
    key in b.channels && key in c.channels && Respects(b.channels[key], c.channels[key], awaited)
  }

  lemma PassKeepsOpen(b: Broker, name: Octets, read: PayloadReader, accepts: nat -> bool, key: (u64, u16))
    requires name in b.queues && key in b.channels
    ensures var r := Deliver(EnvOf(b, name, read, accepts), PassOver(b, name));
      StaysOpen(b, AfterPass(b, name, r), key, AwaitedOn(r.sent, key))
  {
    PrefetchIsSafe(EnvOf(b, name, read, accepts), PassOver(b, name), key);
    hide Deliver, AwaitedOn, Respects;
  }

  lemma DisconnectKeepsOpen(b: Broker, conn: u64, key: (u64, u16))
    requires key in b.channels && key.0 != conn
    ensures StaysOpen(b, Removed(b, conn), key, 0)
  {
    RemovalKeepsChannels(b, conn, key);
    hide Removed;
  }

  lemma StepKeepsOpen(b: Broker, t: Trace, name: Octets, op: Op, key: (u64, u16), awaited: nat)
    requires StaysOpen(b, t.broker, key, awaited) && op != DisconnectOp(key.0)
    ensures StaysOpen(b, Step(t, name, op).broker, key, awaited + AwaitedIn(t.broker, op, key))
  {
    hide Deliver, AwaitedOn, Respects, Removed, AfterPass;
    match op {
      case DeliverOp(n, read, accepts) =>
        if n in t.broker.queues {
          var r := Deliver(EnvOf(t.broker, n, read, accepts), PassOver(t.broker, n));
          PassKeepsOpen(t.broker, n, read, accepts, key);
          RespectsTrans(b.channels[key], t.broker.channels[key],
                        AfterPass(t.broker, n, r).channels[key], awaited, AwaitedOn(r.sent, key));
        }
      case DisconnectOp(conn) =>
        DisconnectKeepsOpen(t.broker, conn, key);
        RespectsTrans(b.channels[key], t.broker.channels[key],
                      Removed(t.broker, conn).channels[key], awaited, 0);
    }
  }

  /**
   * Over any run of passes, on any queues, and disconnects of other connections: a channel stays
   * open with its settings, its counter follows exactly what was sent on it for acknowledgement,
   * it is not taken over a nonzero prefetch limit, and nothing is sent on it while its client has
   * stopped the flow.
   */
  lemma {:induction false} RunRespectsPrefetch(b: Broker, name: Octets, ops: seq<Op>, key: (u64, u16))
    requires key in b.channels && DisconnectOp(key.0) !in ops
    ensures StaysOpen(b, Run(b, name, ops).broker, key, AwaitedOver(b, name, ops, key))
  {
    hide *;
    if ops == [] {
      NothingAwaited(b, name, key);
    } else {
      var before, op := ops[..|ops| - 1], ops[|ops| - 1];
      NotAmong(ops, DisconnectOp(key.0));
      RunRespectsPrefetch(b, name, before, key);
      RunStep(b, name, ops, key);
      StepKeepsOpen(b, Run(b, name, before), name, op, key, AwaitedOver(b, name, before, key));
    }
  }

  lemma NotAmong(ops: seq<Op>, op: Op)
    requires ops != [] && op !in ops
    ensures op !in ops[..|ops| - 1] && ops[|ops| - 1] != op
  {
  }

  lemma NothingAwaited(b: Broker, name: Octets, key: (u64, u16))
    requires key in b.channels
    ensures StaysOpen(b, Run(b, name, []).broker, key, AwaitedOver(b, name, [], key))
  {
  }

  lemma RunStep(b: Broker, name: Octets, ops: seq<Op>, key: (u64, u16))
    requires ops != []
    ensures var before, op := ops[..|ops| - 1], ops[|ops| - 1];
      && Run(b, name, ops) == Step(Run(b, name, before), name, op)
      && AwaitedOver(b, name, ops, key)
         == AwaitedOver(b, name, before, key) + AwaitedIn(Run(b, name, before).broker, op, key)
  {
    hide Step, AwaitedIn;
  }
}
