// The broker's queues and delivery records: running a delivery pass, and taking a closed
// connection out of everything.
module Brokers {
  import opened Bytes
  import opened Messages
  import opened PriorityQueues
  import opened Delivery

  datatype QueueState = QueueState(
    messages: seq<QueueMessage>, inflight: map<u64, Message>, nextListener: nat,
    listeners: seq<(u64, u16)>, consumerTags: map<Octets, (u64, u16, bool)>, consumerCount: nat,
    activeConsumers: seq<Consumer>, exclusive: bool, autoDelete: bool, owner: Option<u64>,
    statDelivered: nat)

  datatype Broker = Broker(
    queues: map<Octets, QueueState>, connections: set<u64>, channels: Channels,
    exclusiveQueues: map<u64, seq<Octets>>, index: map<u64, Octets>,
    deliveries: Records, consumerIndex: map<Octets, Octets>)

  function Members(names: seq<Octets>): set<Octets> {
    set name | name in names
  }

  /** The delivery tags of some records. */
  function TagSet(ds: seq<(Octets, u64)>): set<u64> {
    if ds == [] then {} else {ds[0].1} + TagSet(ds[1..])
  }

  // Removing a connection, step by step.

  /** The connection, its channels and the queues it declared exclusive are gone. */
  function WithoutConnection(b: Broker, conn: u64): Broker {
    var exclusive := if conn in b.exclusiveQueues then b.exclusiveQueues[conn] else [];
    b.(connections := b.connections - {conn},
       channels := (map key | key in b.channels && key.0 != conn :: b.channels[key]),
       exclusiveQueues := b.exclusiveQueues - {conn},
       queues := b.queues - Members(exclusive))
  }

  /** An unacknowledged message goes back to the front of its level. */
  function Requeue(q: QueueState, tag: u64): QueueState {
    if tag !in q.inflight then q
    else q.(inflight := q.inflight - {tag},
            messages := AfterPushFront(q.messages, Full(q.inflight[tag])))
  }

  function RequeueAll(queues: map<Octets, QueueState>, ds: seq<(Octets, u64)>)
    : map<Octets, QueueState>
    decreases |ds|
  {
    if ds == [] then queues
    else
      var (name, tag) := ds[0];
      RequeueAll(if name in queues then queues[name := Requeue(queues[name], tag)] else queues, ds[1..])
  }

  function RecordsOf(b: Broker, conn: u64): seq<(Octets, u64)> {
    if conn in b.deliveries then b.deliveries[conn] else []
  }

  function Requeued(b: Broker, conn: u64): Broker {
    var ds := RecordsOf(b, conn);
    b.(deliveries := b.deliveries - {conn}, index := b.index - TagSet(ds),
       queues := RequeueAll(b.queues, ds))
  }

  function OtherListeners(ls: seq<(u64, u16)>, conn: u64): seq<(u64, u16)> {
    if ls == [] then []
    else (if ls[0].0 != conn then [ls[0]] else []) + OtherListeners(ls[1..], conn)
  }

  function TagsOf(q: QueueState, conn: u64): set<Octets> {
    set tag | tag in q.consumerTags && q.consumerTags[tag].0 == conn
  }

  function Cleaned(q: QueueState, conn: u64): QueueState {
    var listeners := OtherListeners(q.listeners, conn);
    q.(listeners := listeners, consumerTags := q.consumerTags - TagsOf(q, conn),
       consumerCount := |listeners|)
  }

  predicate OwnedBy(q: QueueState, conn: u64) {
    q.exclusive && q.owner == Some(conn)
  }

  function AllCleaned(b: Broker, conn: u64): Broker {
    b.(queues := (map name | name in b.queues :: Cleaned(b.queues[name], conn)),
       consumerIndex := b.consumerIndex
         - (set name, tag | name in b.queues && tag in TagsOf(b.queues[name], conn) :: tag))
  }

  function WithoutOwned(b: Broker, conn: u64): Broker {
    b.(queues := b.queues - set name | name in b.queues && OwnedBy(b.queues[name], conn))
  }

  predicate Abandoned(q: QueueState) {
    q.autoDelete && q.listeners == []
  }

  function WithoutAbandoned(b: Broker): Broker {
    b.(queues := b.queues - set name | name in b.queues && Abandoned(b.queues[name]))
  }

  function Removed(b: Broker, conn: u64): Broker {
    WithoutAbandoned(WithoutOwned(AllCleaned(Requeued(WithoutConnection(b, conn), conn), conn), conn))
  }

  // What that amounts to, queue by queue.

  /** The tags a connection answers for in one queue. */
  function TagsIn(ds: seq<(Octets, u64)>, name: Octets): seq<u64> {
    if ds == [] then []
    else (if ds[0].0 == name then [ds[0].1] else []) + TagsIn(ds[1..], name)
  }

  function RequeueTags(q: QueueState, tags: seq<u64>): QueueState
    decreases |tags|
  {
    if tags == [] then q else RequeueTags(Requeue(q, tags[0]), tags[1..])
  }

  lemma {:induction false} RequeueAllByQueue(
    queues: map<Octets, QueueState>, ds: seq<(Octets, u64)>, name: Octets)
    ensures RequeueAll(queues, ds).Keys == queues.Keys
    ensures name in queues ==> RequeueAll(queues, ds)[name] == RequeueTags(queues[name], TagsIn(ds, name))
    decreases |ds|
  {
    if ds != [] {
      var (n, tag) := ds[0];
      var next := if n in queues then queues[n := Requeue(queues[n], tag)] else queues;
      RequeueAllByQueue(next, ds[1..], name);
      hide Requeue;
      if n == name {
        assert ([tag] + TagsIn(ds[1..], name))[1..] == TagsIn(ds[1..], name);
      } else {
        assert [] + TagsIn(ds[1..], name) == TagsIn(ds[1..], name);
      }
    }
  }

  lemma {:induction false} TagsInMembers(ds: seq<(Octets, u64)>, name: Octets, tag: u64)
    ensures tag in TagsIn(ds, name) <==> (name, tag) in ds
  {
    if ds != [] {
      TagsInMembers(ds[1..], name, tag);
      assert ds == [ds[0]] + ds[1..];
    }
  }

  function Unacknowledged(inflight: map<u64, Message>): set<QueueMessage> {
    set id | id in inflight :: Full(inflight[id])
  }

  /** Everything the queue holds, ready or inflight. */
  function Holdings(q: QueueState): multiset<QueueMessage> {
    multiset(q.messages) + multiset(Unacknowledged(q.inflight))
  }

  lemma WithoutOne(inflight: map<u64, Message>, tag: u64)
    requires Keyed(inflight) && tag in inflight
    ensures Keyed(inflight - {tag})
    ensures Unacknowledged(inflight) == Unacknowledged(inflight - {tag}) + {Full(inflight[tag])}
    ensures Full(inflight[tag]) !in Unacknowledged(inflight - {tag})
  {
    var rest := inflight - {tag};
    forall m | m in Unacknowledged(inflight)
      ensures m in Unacknowledged(rest) || m == Full(inflight[tag])
    {
      var id :| id in inflight && m == Full(inflight[id]);
      if id != tag { assert id in rest && rest[id] == inflight[id]; }
    }
  }

  lemma PushFrontAdds(s: seq<QueueMessage>, m: QueueMessage)
    ensures multiset(AfterPushFront(s, m)) == multiset(s) + multiset{m}
  {
    var k := Leading(s, m.Priority() + 1);
    assert s == s[..k] + s[k..];
    hide Leading;
  }

  lemma RequeueConserves(q: QueueState, tag: u64)
    requires Keyed(q.inflight)
    ensures Keyed(Requeue(q, tag).inflight) && Holdings(Requeue(q, tag)) == Holdings(q)
    ensures Requeue(q, tag).inflight == q.inflight - {tag}
  {
    hide AfterPushFront, Keyed;
    if tag !in q.inflight {
      assert q.inflight - {tag} == q.inflight;
    } else {
      WithoutOne(q.inflight, tag);
      PushFrontAdds(q.messages, Full(q.inflight[tag]));
      hide Unacknowledged;
    }
  }

  lemma TakeAway(inflight: map<u64, Message>, tags: seq<u64>)
    requires tags != []
    ensures inflight - {tags[0]} - (set t | t in tags[1..]) == inflight - (set t | t in tags)
  {
    assert forall t :: t in tags <==> t == tags[0] || t in tags[1..];
  }

  lemma {:induction false} RequeueTagsConserves(q: QueueState, tags: seq<u64>)
    requires Keyed(q.inflight)
    ensures var r := RequeueTags(q, tags);
      && Keyed(r.inflight) && Holdings(r) == Holdings(q)
      && r.inflight == q.inflight - (set t | t in tags)
      && r == q.(messages := r.messages, inflight := r.inflight)
    decreases |tags|
  {
    if tags == [] {
      assert q.inflight - (set t | t in tags) == q.inflight;
    } else {
      RequeueConserves(q, tags[0]);
      RequeueTagsConserves(Requeue(q, tags[0]), tags[1..]);
      TakeAway(q.inflight, tags);
      hide Holdings, Keyed, AfterPushFront;
    }
  }

  /**
   * A queue outlives a connection unless the connection declared it exclusive or owns it, or it
   * is an auto-delete queue that nobody else listens to.
   */
  predicate Survives(b: Broker, conn: u64, name: Octets) {
    && name in b.queues
    && !(conn in b.exclusiveQueues && name in b.exclusiveQueues[conn])
    && var q := b.queues[name];
      && !(q.exclusive && q.owner == Some(conn))
      && !(q.autoDelete && forall l <- q.listeners :: l.0 == conn)
  }

  lemma {:induction false} NoOtherListeners(ls: seq<(u64, u16)>, conn: u64)
    ensures OtherListeners(ls, conn) == [] <==> forall l <- ls :: l.0 == conn
  {
    if ls != [] {
      NoOtherListeners(ls[1..], conn);
      assert ls[0] in ls && forall l :: l in ls <==> l == ls[0] || l in ls[1..];
    }
  }

  lemma RemovedQueue(b: Broker, conn: u64, name: Octets)
    requires forall n <- b.queues :: Keyed(b.queues[n].inflight)
    ensures name in Removed(b, conn).queues <==> Survives(b, conn, name)
    ensures Survives(b, conn, name) ==>
              Removed(b, conn).queues[name]
              == Cleaned(RequeueTags(b.queues[name], TagsIn(RecordsOf(b, conn), name)), conn)
  {
    hide RequeueAll, RequeueTags, OtherListeners, Keyed, Holdings, TagSet, TagsIn, TagsOf;
    var w := WithoutConnection(b, conn);
    RequeueAllByQueue(w.queues, RecordsOf(w, conn), name);
    if name in w.queues {
      NoOtherListeners(b.queues[name].listeners, conn);
      RequeueTagsConserves(b.queues[name], TagsIn(RecordsOf(b, conn), name));
    }
  }

  lemma CleanedHoldings(q: QueueState, conn: u64)
    ensures Holdings(Cleaned(q, conn)) == Holdings(q)
  {
  }

  /** What becomes of one queue whose connection had the records `ds`. */
  lemma CleanedRequeued(q: QueueState, ds: seq<(Octets, u64)>, name: Octets, conn: u64)
    requires Keyed(q.inflight)
    ensures var r := Cleaned(RequeueTags(q, TagsIn(ds, name)), conn);
      && Holdings(r) == Holdings(q)
      && r.inflight == q.inflight - (set t | t in q.inflight && (name, t) in ds)
      && r.listeners == OtherListeners(q.listeners, conn) && r.consumerCount == |r.listeners|
      && r.consumerTags == q.consumerTags - TagsOf(q, conn)
      && r == q.(messages := r.messages, inflight := r.inflight, listeners := r.listeners,
                 consumerCount := r.consumerCount, consumerTags := r.consumerTags)
  {
    hide RequeueTags, OtherListeners, TagsIn, Holdings, Keyed;
    var tags := TagsIn(ds, name);
    RequeueTagsConserves(q, tags);
    forall t | t in q.inflight ensures t in tags <==> (name, t) in ds {
      TagsInMembers(ds, name, t);
    }
    assert q.inflight - (set t | t in tags) == q.inflight - (set t | t in q.inflight && (name, t) in ds);
    CleanedHoldings(RequeueTags(q, tags), conn);
  }

  /** The inflight messages of a queue that the connection has no record of. */
  function NotRecorded(b: Broker, conn: u64, name: Octets, inflight: map<u64, Message>): map<u64, Message> {
    inflight - set t | t in inflight && conn in b.deliveries && (name, t) in b.deliveries[conn]
  }

  ghost predicate OthersListen(was: seq<(u64, u16)>, now: seq<(u64, u16)>, conn: u64) {
    forall l: (u64, u16) :: multiset(now)[l] == if l.0 == conn then 0 else multiset(was)[l]
  }

  function OthersTags(tags: map<Octets, (u64, u16, bool)>, conn: u64): map<Octets, (u64, u16, bool)> {
    map tag | tag in tags && tags[tag].0 != conn :: tags[tag]
  }

  /**
   * What a removal makes of a queue it keeps: every message the connection had not acknowledged
   * is ready again, no message is lost or duplicated, and the connection's listeners and consumer
   * tags are gone; the other connections' inflight messages stay, and so does the list of
   * consumers that deliveries go to.
   */
  ghost predicate Returned(b: Broker, conn: u64, name: Octets, q: QueueState, r: QueueState) {
    && Holdings(r) == Holdings(q)
    && r.inflight == NotRecorded(b, conn, name, q.inflight)
    && OthersListen(q.listeners, r.listeners, conn) && r.consumerCount == |r.listeners|
    && r.consumerTags == OthersTags(q.consumerTags, conn)
    && r == q.(messages := r.messages, inflight := r.inflight, listeners := r.listeners,
               consumerCount := r.consumerCount, consumerTags := r.consumerTags)
  }

  lemma CleanedReturned(b: Broker, conn: u64, name: Octets)
    requires name in b.queues && Keyed(b.queues[name].inflight)
    ensures Returned(b, conn, name, b.queues[name],
                     Cleaned(RequeueTags(b.queues[name], TagsIn(RecordsOf(b, conn), name)), conn))
  {
    hide RequeueTags, OtherListeners, TagsIn, Holdings, Keyed, Cleaned, TagsOf, RecordsOf;
    hide NotRecorded, OthersListen, OthersTags;
    var q, ds := b.queues[name], RecordsOf(b, conn);
    CleanedRequeued(q, ds, name, conn);
    OtherListenersListen(q.listeners, conn);
    OtherTags(q, conn);
    RecordsWritten(b, conn, name, q.inflight);
  }

  /** Removing a connection keeps exactly the queues that survive it, each as stated. */
  lemma RemovalReturnsUnacknowledged(b: Broker, conn: u64, name: Octets)
    requires forall n <- b.queues :: Keyed(b.queues[n].inflight)
    ensures name in Removed(b, conn).queues <==> Survives(b, conn, name)
    ensures name in Removed(b, conn).queues ==>
              name in b.queues && Returned(b, conn, name, b.queues[name], Removed(b, conn).queues[name])
  {
    hide *;
    RemovedQueue(b, conn, name);
    if name in Removed(b, conn).queues {
      SurvivorWasThere(b, conn, name);
      CleanedReturned(b, conn, name);
    }
  }

  lemma RecordsWritten(b: Broker, conn: u64, name: Octets, inflight: map<u64, Message>)
    ensures inflight - (set t | t in inflight && (name, t) in RecordsOf(b, conn))
         == NotRecorded(b, conn, name, inflight)
  {
    assert (set t | t in inflight && (name, t) in RecordsOf(b, conn))
        == (set t | t in inflight && conn in b.deliveries && (name, t) in b.deliveries[conn]);
  }

  lemma OtherTags(q: QueueState, conn: u64)
    ensures q.consumerTags - TagsOf(q, conn) == OthersTags(q.consumerTags, conn)
  {
  }

  lemma OtherListenersListen(ls: seq<(u64, u16)>, conn: u64)
    ensures OthersListen(ls, OtherListeners(ls, conn), conn)
  {
    forall l: (u64, u16)
      ensures multiset(OtherListeners(ls, conn))[l] == if l.0 == conn then 0 else multiset(ls)[l]
    {
      OtherListenersKept(ls, conn, l);
    }
  }

  lemma SurvivorWasThere(b: Broker, conn: u64, name: Octets)
    requires Survives(b, conn, name)
    ensures name in b.queues
  {
  }

  lemma {:induction false} OtherListenersKept(ls: seq<(u64, u16)>, conn: u64, l: (u64, u16))
    ensures multiset(OtherListeners(ls, conn))[l] == if l.0 == conn then 0 else multiset(ls)[l]
  {
    if ls != [] {
      OtherListenersKept(ls[1..], conn, l);
      assert ls == [ls[0]] + ls[1..];
    }
  }

  /** Some connection answers for every inflight message of every queue. */
  ghost predicate AllAnswerable(b: Broker) {
    forall name <- b.queues, id <- b.queues[name].inflight :: Answerable(b.deliveries, name, id)
  }

  /** What stays inflight after a removal is on the books of another connection. */
  lemma RemovalKeepsAnswerable(b: Broker, conn: u64)
    requires AllAnswerable(b) && forall n <- b.queues :: Keyed(b.queues[n].inflight)
    ensures AllAnswerable(Removed(b, conn)) && conn !in Removed(b, conn).deliveries
  {
    var r := Removed(b, conn);
    assert r.deliveries == b.deliveries - {conn};
    forall name, id | name in r.queues && id in r.queues[name].inflight
      ensures Answerable(r.deliveries, name, id)
    {
      RemovalReturnsUnacknowledged(b, conn, name);
      assert Answerable(b.deliveries, name, id);
      var c :| c in b.deliveries && (name, id) in b.deliveries[c];
      assert c in r.deliveries && (name, id) in r.deliveries[c];
    }
  }

  // A delivery pass over one of the broker's queues.

  function EnvOf(b: Broker, name: Octets, read: PayloadReader, accepts: nat -> bool): Env
    requires name in b.queues
  {
    Env(name, b.queues[name].activeConsumers, read, b.connections, accepts)
  }

  function PassOver(b: Broker, name: Octets): Pass
    requires name in b.queues
  {
    var q := b.queues[name];
    Pass(q.messages, Books(q.inflight, b.index, b.deliveries, b.channels), q.nextListener, 0, [], [], false)
  }

  function AfterPass(b: Broker, name: Octets, p: Pass): Broker
    requires name in b.queues
  {
    var q := b.queues[name];
    b.(queues := b.queues[name := q.(
         messages := p.messages, inflight := p.books.inflight, nextListener := p.nextListener,
         statDelivered := q.statDelivered + |p.sent|)],
       index := p.books.index, deliveries := p.books.deliveries, channels := p.books.channels)
  }

  // What every pass and every removal keeps.

  /** Queues are in delivery order, inflight under own ids, and every inflight message has a holder. */
  ghost predicate BrokerOk(b: Broker) {
    && (forall n <- b.queues :: Descending(b.queues[n].messages) && Keyed(b.queues[n].inflight))
    && AllAnswerable(b)
  }

  lemma TookFrontIsOrdered(env: Env, p: Pass, q: Pass, sent: seq<Sent>, n: nat)
    requires Descending(p.messages) && TookFront(env, p, q, sent, n)
    ensures Descending(q.messages)
  {
    hide BookAll, Unreadable, ResolvedAll, MessagesOf;
    if q.refused {
      var m := Full(Resolve(env.read, p.messages[n]).value);
      assert m.Priority() == p.messages[n].Priority();
      assert forall i :: 0 < i < |q.messages| ==> q.messages[i] == p.messages[n + i];
    }
  }

  /** Passes keep the broker in order, and every inflight message on someone's books. */
  lemma PassKeepsBrokerOk(b: Broker, name: Octets, read: PayloadReader, accepts: nat -> bool)
    requires BrokerOk(b) && name in b.queues
    ensures BrokerOk(AfterPass(b, name, Deliver(EnvOf(b, name, read, accepts), PassOver(b, name))))
  {
    var env, p := EnvOf(b, name, read, accepts), PassOver(b, name);
    var r := Deliver(env, p);
    var sent, n := PassTakesFront(env, p);
    TookFrontIsOrdered(env, p, r, sent, n);
    BookAllExtends(p.books, name, sent);
    var c := AfterPass(b, name, r);
    hide Deliver, BookAll, Descending, Keyed, Answerable, Indexed, Grows, ResolvedAll, Unreadable, MessagesOf;
    forall m, id | m in c.queues && id in c.queues[m].inflight ensures Answerable(c.deliveries, m, id) {
      if m != name || id in p.books.inflight {
        assert id in b.queues[m].inflight;
        AnswerableStays(b.deliveries, c.deliveries, m, id);
      }
    }
  }

  lemma {:induction false} RequeueTagsKeepsOrder(q: QueueState, tags: seq<u64>)
    requires Descending(q.messages)
    ensures Descending(RequeueTags(q, tags).messages)
    decreases |tags|
  {
    if tags != [] {
      if tags[0] in q.inflight { PushIsStable(q.messages, Full(q.inflight[tags[0]])); }
      hide Descending, AfterPushFront;
      RequeueTagsKeepsOrder(Requeue(q, tags[0]), tags[1..]);
    }
  }

  lemma RemovalKeepsBrokerOk(b: Broker, conn: u64)
    requires BrokerOk(b)
    ensures BrokerOk(Removed(b, conn))
  {
    var r := Removed(b, conn);
    RemovalKeepsAnswerable(b, conn);
    forall n | n in r.queues ensures Descending(r.queues[n].messages) && Keyed(r.queues[n].inflight) {
      RemovedQueue(b, conn, n);
      var tags := TagsIn(RecordsOf(b, conn), n);
      RequeueTagsKeepsOrder(b.queues[n], tags);
      RequeueTagsConserves(b.queues[n], tags);
    }
    hide Removed, Descending, Keyed, AllAnswerable;
  }

  /**
   * Delivery and disconnect fit together: whatever a pass sent to a connection for
   * acknowledgement is ready again, not inflight, once the connection is removed.
   */
  lemma DisconnectUndoesDelivery(
    b: Broker, name: Octets, read: PayloadReader, accepts: nat -> bool, conn: u64, s: Sent)
    requires BrokerOk(b) && name in b.queues
    requires var r := Deliver(EnvOf(b, name, read, accepts), PassOver(b, name));
      s in r.sent && !s.consumer.noAck && s.consumer.connId == conn
    ensures var c := AfterPass(b, name, Deliver(EnvOf(b, name, read, accepts), PassOver(b, name)));
      && (name, s.message.id) in RecordsOf(c, conn)
      && (name in Removed(c, conn).queues ==>
            && s.message.id !in Removed(c, conn).queues[name].inflight
            && Holdings(Removed(c, conn).queues[name]) == Holdings(c.queues[name]))
  {
    var env, p := EnvOf(b, name, read, accepts), PassOver(b, name);
    var r := Deliver(env, p);
    var c := AfterPass(b, name, r);
    var sent, n := PassTakesFront(env, p);
    assert r.sent == sent;
    BookAllExtends(p.books, name, sent);
    assert Holds(c.deliveries, name, s);
    PassKeepsBrokerOk(b, name, read, accepts);
    hide Deliver, TookFront, BookAll, Extends, Removed, Holdings, Descending, AllAnswerable;
    RemovalReturnsUnacknowledged(c, conn, name);
  }

  // The list of consumers that deliveries go to is not cleaned.

  predicate Lists(q: QueueState, conn: u64) {
    exists c :: c in q.activeConsumers && c.connId == conn
  }

  /** A surviving queue's list is free of the connection exactly when it was before. */
  lemma ListIsFreeIff(b: Broker, conn: u64, name: Octets)
    requires forall n <- b.queues :: Keyed(b.queues[n].inflight)
    requires name in Removed(b, conn).queues
    ensures name in b.queues
    ensures !Lists(Removed(b, conn).queues[name], conn) <==> !Lists(b.queues[name], conn)
  {
    RemovalReturnsUnacknowledged(b, conn, name);
  }

  /** A consumer of a removed connection counts as having room, although nothing reaches it. */
  lemma ClosedConsumerLooksReady(b: Broker, conn: u64, c: Consumer)
    requires c.connId == conn
    ensures HasCapacity(Removed(b, conn).channels, c) && conn !in Removed(b, conn).connections
  {
    hide RequeueAll, OtherListeners;
  }

  /**
   * A pass whose turn comes to a consumer without an open connection ends there: nothing more
   * is sent, and the head goes back.
   */
  lemma ClosedConsumerStopsPass(env: Env, p: Pass)
    requires p.messages != [] && Resolve(env.read, p.messages[0]).Some?
    requires var pick := Select(p.books.channels, env.consumers, p.nextListener).0;
      pick.Some? && pick.value < |env.consumers| && env.consumers[pick.value].connId !in env.connections
    ensures var q := Deliver(env, p);
      q.refused && q.sent == p.sent && q.books == p.books
      && Ids(q.messages) == Ids(p.messages)
  {
    hide Select, HasCapacity, Resolve, AfterPushFront;
    HeadId(p.messages);
    IdsPushFront(p.messages[1..], Full(Resolve(env.read, p.messages[0]).value));
  }

  /** A queue with one message and a consumer on each of two connections. */
  function Shared(m: Message): Broker {
    var consumers := [Consumer([1], 1, 1, false), Consumer([2], 2, 1, false)];
    var tags: map<Octets, (u64, u16, bool)> := map[[1] := (1, 1, false), [2] := (2, 1, false)];
    var q := QueueState([Full(m)], map[], 0, [(1, 1), (2, 1)], tags, 2, consumers, false, false, None, 0);
    Broker(map[[0] := q], {1, 2}, map[], map[], map[], map[], map[])
  }

  /**
   * So a removed connection can cost the others a pass: after connection 1 is removed, a
   * pass sends nothing, although the consumer of connection 2 has room.
   */
  lemma DisconnectBlocksOthers(m: Message, read: PayloadReader)
    ensures var b := Removed(Shared(m), 1);
      && [0] in b.queues && 2 in b.connections
      && b.queues[[0]].activeConsumers == [Consumer([1], 1, 1, false), Consumer([2], 2, 1, false)]
      && HasCapacity(b.channels, Consumer([2], 2, 1, false))
      && var r := Deliver(EnvOf(b, [0], read, _ => true), PassOver(b, [0]));
        r.sent == [] && r.refused && Ids(r.messages) == multiset{m.id}
  {
    var b, c := Removed(Shared(m), 1), Consumer([1], 1, 1, false);
    SharedSurvives(m);
    ClosedConsumerLooksReady(Shared(m), 1, c);
    assert b.queues[[0]].messages == [Full(m)];
    var env, p := EnvOf(b, [0], read, _ => true), PassOver(b, [0]);
    assert env.consumers[0] == c;
    hide Removed, Shared;
    assert Select(p.books.channels, env.consumers, p.nextListener) == (Some(0), 1);
    ClosedConsumerStopsPass(env, p);
  }

  lemma SharedSurvives(m: Message)
    ensures var b, q := Removed(Shared(m), 1), Shared(m).queues[[0]];
      && [0] in b.queues && b.connections == {2} && b.channels == map[]
      && b.queues[[0]].messages == q.messages && b.queues[[0]].nextListener == 0
      && b.queues[[0]].activeConsumers == q.activeConsumers
  {
    RemovedQueue(Shared(m), 1, [0]);
    hide RequeueAll, OtherListeners;
    assert Removed(Shared(m), 1).channels == map[];
    assert Removed(Shared(m), 1).connections == {2};
  }

  // Conservation over whole runs of passes and disconnects.

  datatype Op =
    | DeliverOp(queue: Octets, read: PayloadReader, accepts: nat -> bool)
    | DisconnectOp(conn: u64)

  /** The broker, and the ids that have left one queue for good. */
  datatype Trace = Trace(broker: Broker, gone: multiset<u64>)

  function Step(t: Trace, name: Octets, op: Op): Trace {
    match op
    case DeliverOp(n, read, accepts) =>
      if n !in t.broker.queues then t
      else
        var r := Deliver(EnvOf(t.broker, n, read, accepts), PassOver(t.broker, n));
        Trace(AfterPass(t.broker, n, r),
              if n == name then t.gone + NoAckIds(r.sent) + Ids(r.dropped) else t.gone)
    case DisconnectOp(conn) => t.(broker := Removed(t.broker, conn))
  }

  function Run(b: Broker, name: Octets, ops: seq<Op>): Trace {
    if ops == [] then Trace(b, multiset{})
    else Step(Run(b, name, ops[..|ops| - 1]), name, ops[|ops| - 1])
  }

  /** The ids a queue holds, ready or inflight. */
  function HeldIds(q: QueueState): multiset<u64> {
    Ids(q.messages) + multiset(q.inflight.Keys)
  }

  ghost predicate Distinct(ids: multiset<u64>) {
    forall id: u64 :: ids[id] <= 1
  }

  ghost predicate Conserved(t: Trace, name: Octets, all: multiset<u64>) {
    BrokerOk(t.broker) && (name in t.broker.queues ==> HeldIds(t.broker.queues[name]) + t.gone == all)
  }

  lemma RequeueKeepsIds(q: QueueState, tag: u64)
    requires Keyed(q.inflight)
    ensures HeldIds(Requeue(q, tag)) == HeldIds(q)
  {
    hide Ids, AfterPushFront;
    if tag in q.inflight {
      var rest := q.inflight - {tag};
      assert q.inflight[tag].id == tag;
      IdsPushFront(q.messages, Full(q.inflight[tag]));
      OneMoreInflight(rest, tag, q.inflight[tag]);
      assert rest[tag := q.inflight[tag]] == q.inflight;
    }
  }

  lemma {:induction false} RequeueTagsKeepsIds(q: QueueState, tags: seq<u64>)
    requires Keyed(q.inflight)
    ensures HeldIds(RequeueTags(q, tags)) == HeldIds(q)
    decreases |tags|
  {
    if tags != [] {
      RequeueKeepsIds(q, tags[0]);
      RequeueConserves(q, tags[0]);
      RequeueTagsKeepsIds(Requeue(q, tags[0]), tags[1..]);
    }
  }

  lemma PassOverConserves(b: Broker, name: Octets, read: PayloadReader, accepts: nat -> bool)
    requires name in b.queues && Distinct(HeldIds(b.queues[name]))
    ensures var r := Deliver(EnvOf(b, name, read, accepts), PassOver(b, name));
      HeldIds(AfterPass(b, name, r).queues[name]) + NoAckIds(r.sent) + Ids(r.dropped)
      == HeldIds(b.queues[name])
  {
    var env, p := EnvOf(b, name, read, accepts), PassOver(b, name);
    assert Held(p) == HeldIds(b.queues[name]);
    assert NoAckIds([]) == multiset{} && Ids([]) == multiset{};
    hide Deliver, Ids, NoAckIds;
    PassConserves(env, p);
  }

  lemma PassStepConserves(t: Trace, name: Octets, op: Op, all: multiset<u64>)
    requires Conserved(t, name, all) && Distinct(all) && op.DeliverOp?
    ensures Conserved(Step(t, name, op), name, all)
  {
    var b := t.broker;
    hide Deliver, BrokerOk, Ids, NoAckIds, HeldIds;
    if op.queue in b.queues {
      PassKeepsBrokerOk(b, op.queue, op.read, op.accepts);
      if op.queue == name {
        assert HeldIds(b.queues[name]) <= all;
        PassOverConserves(b, name, op.read, op.accepts);
      }
    }
  }

  lemma DisconnectStepConserves(t: Trace, name: Octets, conn: u64, all: multiset<u64>)
    requires Conserved(t, name, all)
    ensures Conserved(Step(t, name, DisconnectOp(conn)), name, all)
  {
    var b := t.broker;
    RemovalKeepsBrokerOk(b, conn);
    RemovedQueue(b, conn, name);
    if Survives(b, conn, name) {
      RequeueTagsKeepsIds(b.queues[name], TagsIn(RecordsOf(b, conn), name));
      hide Removed, RequeueTags, Ids;
    } else {
      hide Removed;
    }
  }

  /**
   * Over any run of delivery passes, on any queues, and disconnects: as long as a queue
   * exists, the ids it holds and those that left it for good are exactly what it began with.
   */
  lemma {:induction false} RunConserves(b: Broker, name: Octets, ops: seq<Op>)
    requires BrokerOk(b) && name in b.queues && Distinct(HeldIds(b.queues[name]))
    ensures Conserved(Run(b, name, ops), name, HeldIds(b.queues[name]))
  {
    if ops != [] {
      var t, op := Run(b, name, ops[..|ops| - 1]), ops[|ops| - 1];
      RunConserves(b, name, ops[..|ops| - 1]);
      hide Conserved, Distinct, Step;
      match op {
        case DeliverOp(_, _, _) => PassStepConserves(t, name, op, HeldIds(b.queues[name]));
        case DisconnectOp(conn) => DisconnectStepConserves(t, name, conn, HeldIds(b.queues[name]));
      }
    }
  }

  // The broker itself.

  class BrokerState {
    var queues: map<Octets, QueueState>
    var connections: set<u64>
    var channels: Channels
    var exclusiveQueues: map<u64, seq<Octets>>
    var deliveryIndex: map<u64, Octets>
    var connDeliveries: Records
    var consumerIndex: map<Octets, Octets>

    function View(): Broker
      reads this
    {
      Broker(queues, connections, channels, exclusiveQueues, deliveryIndex, connDeliveries, consumerIndex)
    }

    constructor (b: Broker)
      ensures View() == b
    {
      queues, connections, channels := b.queues, b.connections, b.channels;
      exclusiveQueues, deliveryIndex := b.exclusiveQueues, b.index;
      connDeliveries, consumerIndex := b.deliveries, b.consumerIndex;
    }

    /** The delivery records, with the inflight messages of one queue. */
    function BooksWith(inflight: map<u64, Message>): Books
      reads this
    {
      Books(inflight, deliveryIndex, connDeliveries, channels)
    }

    /** One delivery pass over a queue; the frames sent go to the sinks of their connections. */
    method DeliverQueue(name: Octets, read: PayloadReader, accepts: nat -> bool)
      returns (sent: seq<Sent>)
      requires name in queues
      modifies this
      ensures var q := old(queues)[name];
        var r := Deliver(EnvOf(old(View()), name, read, accepts), PassOver(old(View()), name));
        && View() == AfterPass(old(View()), name, r) && sent == r.sent
    {
      hide Deliver;
      var q;
      q, sent := DeliverFrom(name, queues[name], read, accepts);
      queues := queues[name := q];
    }

    /** The loop of the pass, on the queue taken out of the map. */
    method DeliverFrom(name: Octets, q0: QueueState, read: PayloadReader, accepts: nat -> bool)
      returns (q: QueueState, sent: seq<Sent>)
      modifies this`deliveryIndex, this`connDeliveries, this`channels
      ensures var r := Deliver(
          Env(name, q0.activeConsumers, read, connections, accepts),
          Pass(q0.messages, old(BooksWith(q0.inflight)), q0.nextListener, 0, [], [], false));
        && sent == r.sent && BooksWith(q.inflight) == r.books
        && q == q0.(messages := r.messages, inflight := r.books.inflight,
                    nextListener := r.nextListener, statDelivered := q0.statDelivered + |r.sent|)
    {
      var consumers := q0.activeConsumers;
      ghost var env := Env(name, consumers, read, connections, accepts);
      ghost var p := Pass(q0.messages, BooksWith(q0.inflight), q0.nextListener, 0, [], [], false);
      ghost var p0 := p;
      var done := false;
      q, sent := q0, [];
      while !done && q.messages != []
        invariant p.sent == sent && p.messages == q.messages && p.nextListener == q.nextListener
        invariant p.books == BooksWith(q.inflight) && (!done ==> p.attempts == |sent|)
        invariant q == q0.(
          messages := q.messages, inflight := q.inflight, nextListener := q.nextListener,
          statDelivered := q0.statDelivered + |sent|)
        invariant Deliver(env, p0) == if done then p else Deliver(env, p)
        decreases !done, |q.messages|
      {
        DeliverStep(env, p);
        SelectIsCompleteAndFirst(channels, consumers, q.nextListener);
        hide Deliver, HasCapacity, Distance, Select, Handed;
        ghost var turn := Turned(env, p);
        var pick, next := NextReadyConsumer(channels, consumers, q.nextListener);
        q := q.(nextListener := next);
        if pick.None? {
          done := true;
        } else {
          q, sent, done := HandTo(
            name, q, consumers[pick.value], read, accepts, sent, env, p.(nextListener := next));
        }
        p := turn.0;
      }
    }

    /** Hands the head of the queue to one consumer. */
    method HandTo(
      name: Octets, q: QueueState, c: Consumer, read: PayloadReader, accepts: nat -> bool,
      sent: seq<Sent>, ghost env: Env, ghost p: Pass)
      returns (q': QueueState, sent': seq<Sent>, done: bool)
      requires q.messages != [] && p.sent == sent && p.attempts == |sent|
      requires p.messages == q.messages && p.books == BooksWith(q.inflight)
      requires env.name == name && env.read == read && env.accepts == accepts
      requires env.connections == connections
      modifies this`deliveryIndex, this`connDeliveries, this`channels
      ensures var (r, more) := Handed(env, p, c);
        && r.messages == q'.messages && r.books == BooksWith(q'.inflight)
        && r.sent == sent' && r.nextListener == p.nextListener
        && done == !more && (more ==> r.attempts == |sent'|)
      ensures |sent'| >= |sent| && q' == q.(
        messages := q'.messages, inflight := q'.inflight,
        statDelivered := q.statDelivered + (|sent'| - |sent|))
    {
      hide Resolve, AfterPushFront, Book;
      var head := q.messages[0];
      q', sent', done := q.(messages := q.messages[1..]), sent, false;
      var resolved := Resolve(read, head);
      if resolved.None? {
        return;
      }
      var msg := resolved.value;
      if !TrySend(c, accepts, |sent|) {
        q' := q'.(messages := AfterPushFront(q'.messages, Full(msg)));
        done := true;
        return;
      }
      q' := Record(name, q', c, msg);
      sent' := sent + [Sent(c, msg)];
      q' := q'.(statDelivered := q'.statDelivered + 1);
      done := |sent'| >= MAX_DELIVERIES_PER_PASS;
    }

    /** Puts a message on the books, unless its consumer acknowledges nothing. */
    method Record(name: Octets, q: QueueState, c: Consumer, msg: Message) returns (q': QueueState)
      modifies this`deliveryIndex, this`connDeliveries, this`channels
      ensures BooksWith(q'.inflight) == Book(old(BooksWith(q.inflight)), name, Sent(c, msg))
      ensures q' == q.(inflight := q'.inflight)
    {
      hide Incremented, Append;
      q' := q;
      if !c.noAck {
        q' := q.(inflight := q.inflight[msg.id := msg]);
        RecordDelivery(name, c, msg.id);
      }
    }

    predicate TrySend(c: Consumer, accepts: nat -> bool, attempt: nat)
      reads this
    {
      c.connId in connections && accepts(attempt)
    }

    method RecordDelivery(name: Octets, c: Consumer, tag: u64)
      modifies this`deliveryIndex, this`connDeliveries, this`channels
      ensures deliveryIndex == old(deliveryIndex)[tag := name]
      ensures connDeliveries == Append(old(connDeliveries), c.connId, (name, tag))
      ensures channels == Incremented(old(channels), c)
    {
      deliveryIndex := deliveryIndex[tag := name];
      var before := if c.connId in connDeliveries then connDeliveries[c.connId] else [];
      connDeliveries := connDeliveries[c.connId := before + [(name, tag)]];
      var key := (c.connId, c.channel);
      if key in channels {
        channels := channels[key := channels[key].(
          unackedCount := (channels[key].unackedCount + 1) % TWO_16)];
      }
    }

    method RemoveConnection(conn: u64)
      modifies this
      ensures View() == Removed(old(View()), conn)
    {
      hide RequeueAll, OtherListeners;
      RemoveExclusive(conn);
      RequeueDeliveries(conn);
      CleanQueues(conn);
      RemoveOwned(conn);
      RemoveAbandoned();
    }

    method RemoveExclusive(conn: u64)
      modifies this
      ensures View() == WithoutConnection(old(View()), conn)
    {
      connections := connections - {conn};
      channels := map key | key in channels && key.0 != conn :: channels[key];
      var exclusive := if conn in exclusiveQueues then exclusiveQueues[conn] else [];
      exclusiveQueues := exclusiveQueues - {conn};
      hide Members;
      RemoveQueues(exclusive);
    }

    method RemoveQueues(names: seq<Octets>)
      modifies this`queues
      ensures queues == old(queues) - Members(names)
    {
      var i := 0;
      while i < |names|
        invariant 0 <= i <= |names|
        invariant queues == old(queues) - Members(names[..i])
      {
        MembersStep(names, i);
        hide Members;
        queues := queues - {names[i]};
        i := i + 1;
      }
      assert names[..i] == names;
    }

    method RequeueDeliveries(conn: u64)
      modifies this
      ensures View() == Requeued(old(View()), conn)
    {
      var deliveries := if conn in connDeliveries then connDeliveries[conn] else [];
      connDeliveries := connDeliveries - {conn};
      var i := 0;
      while i < |deliveries|
        invariant 0 <= i <= |deliveries|
        invariant View() == Requeued(old(View()), conn).(queues := queues, index := deliveryIndex)
        invariant RequeueAll(queues, deliveries[i..]) == RequeueAll(old(queues), deliveries)
        invariant deliveryIndex - TagSet(deliveries[i..]) == old(deliveryIndex) - TagSet(deliveries)
      {
        var (name, tag) := deliveries[i];
        RecordStep(queues, deliveryIndex, deliveries, i);
        hide RequeueAll, TagSet;
        deliveryIndex := deliveryIndex - {tag};
        if name in queues {
          var q := queues[name];
          if tag in q.inflight {
            var msg := q.inflight[tag];
            q := q.(inflight := q.inflight - {tag}, messages := AfterPushFront(q.messages, Full(msg)));
          }
          queues := queues[name := q];
        }
        i := i + 1;
      }
      assert deliveries[i..] == [];
      assert deliveryIndex - {} == deliveryIndex;
    }

    method CleanQueues(conn: u64)
      modifies this
      ensures View() == AllCleaned(old(View()), conn)
    {
      hide PartlyCleaned, TagsOf, OtherListeners, AllCleaned;
      var names := queues.Keys;
      NothingCleaned(View(), conn);
      while names != {}
        invariant names <= old(queues).Keys
        invariant View() == PartlyCleaned(old(View()), conn, names)
      {
        var name :| name in names;
        CleanStep(old(View()), conn, names, name);
        var q := queues[name];
        var removedTags := TagsOf(q, conn);
        var listeners := OtherListeners(q.listeners, conn);
        queues := queues[name := q.(
          listeners := listeners, consumerTags := q.consumerTags - removedTags,
          consumerCount := |listeners|)];
        consumerIndex := consumerIndex - removedTags;
        names := names - {name};
      }
      NothingLeftToClean(old(View()), conn);
    }

    method RemoveOwned(conn: u64)
      modifies this
      ensures View() == WithoutOwned(old(View()), conn)
    {
      queues := queues - set name | name in queues && OwnedBy(queues[name], conn);
    }

    method RemoveAbandoned()
      modifies this
      ensures View() == WithoutAbandoned(old(View()))
    {
      queues := queues - set name | name in queues && Abandoned(queues[name]);
    }
  }

  lemma MembersStep(names: seq<Octets>, i: nat)
    requires i < |names|
    ensures Members(names[..i + 1]) == Members(names[..i]) + {names[i]}
  {
    assert names[..i + 1] == names[..i] + [names[i]];
  }

  lemma RecordStep(
    queues: map<Octets, QueueState>, index: map<u64, Octets>, ds: seq<(Octets, u64)>, i: nat)
    requires i < |ds|
    ensures var (name, tag) := ds[i];
      && RequeueAll(queues, ds[i..]) == RequeueAll(
           if name in queues then queues[name := Requeue(queues[name], tag)] else queues, ds[i + 1..])
      && index - {tag} - TagSet(ds[i + 1..]) == index - TagSet(ds[i..])
  {
    assert ds[i..][0] == ds[i] && ds[i..][1..] == ds[i + 1..];
  }

  /** The broker while the queues in `names` have yet to be cleaned. */
  function PartlyCleaned(b: Broker, conn: u64, names: set<Octets>): Broker {
    b.(queues := (map n | n in b.queues :: if n in names then b.queues[n] else Cleaned(b.queues[n], conn)),
       consumerIndex := b.consumerIndex
         - (set n, tag | n in b.queues && n !in names && tag in TagsOf(b.queues[n], conn) :: tag))
  }

  lemma CleanStep(b: Broker, conn: u64, names: set<Octets>, name: Octets)
    requires name in names && names <= b.queues.Keys
    ensures var x := PartlyCleaned(b, conn, names);
      && name in x.queues && x.queues[name] == b.queues[name]
      && PartlyCleaned(b, conn, names - {name})
         == x.(queues := x.queues[name := Cleaned(b.queues[name], conn)],
               consumerIndex := x.consumerIndex - TagsOf(b.queues[name], conn))
  {
    hide TagsOf, Cleaned;
    var x, y := PartlyCleaned(b, conn, names), PartlyCleaned(b, conn, names - {name});
    assert y.queues == x.queues[name := Cleaned(b.queues[name], conn)];
    assert y.consumerIndex == x.consumerIndex - TagsOf(b.queues[name], conn);
  }

  lemma NothingCleaned(b: Broker, conn: u64)
    ensures PartlyCleaned(b, conn, b.queues.Keys) == b
  {
    hide TagsOf, Cleaned;
    var x := PartlyCleaned(b, conn, b.queues.Keys);
    assert x.queues == b.queues && x.consumerIndex == b.consumerIndex;
  }

  lemma NothingLeftToClean(b: Broker, conn: u64)
    ensures PartlyCleaned(b, conn, {}) == AllCleaned(b, conn)
  {
    hide TagsOf, Cleaned;
  }
}
