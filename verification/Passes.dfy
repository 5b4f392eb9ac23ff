// What one delivery pass does to the broker, field by field, and why it may refuse.
module Passes {
  import opened Bytes
  import opened Messages
  import opened PriorityQueues
  import opened Delivery
  import opened Brokers

  // Whom messages are sent to.

  /** Messages beyond the first n went to open connections whose sink took that attempt. */
  ghost predicate AllTaken(env: Env, sent: seq<Sent>, n: nat, attempts: nat) {
    forall i :: n <= i < |sent| ==> Taken(env, sent[i], attempts + (i - n))
  }

  predicate Taken(env: Env, s: Sent, attempt: nat) {
    s.consumer.connId in env.connections && env.accepts(attempt)
  }

  /** Some consumer that is not held up has no open connection, or its sink does not take the attempt. */
  ghost predicate TurnedAway(env: Env, channels: Channels, attempts: nat) {
    exists c: Consumer :: c in env.consumers && !IsHeldUp(channels, c)
      && !(c.connId in env.connections && env.accepts(attempts))
  }

  lemma TurnTaken(env: Env, p: Pass)
    requires p.messages != [] && !p.refused
    ensures var q := Turned(env, p).0;
      && q.attempts == p.attempts + |q.sent| - |p.sent| && p.sent <= q.sent
      && |q.sent| <= |p.sent| + 1
      && AllTaken(env, q.sent, |p.sent|, p.attempts)
      && (q.refused ==> q.sent == p.sent && TurnedAway(env, q.books.channels, q.attempts))
  {
    SelectIsCompleteAndFirst(p.books.channels, env.consumers, p.nextListener);
    hide Select, Distance, Book, AfterPushFront, Resolve;
    var (pick, next) := Select(p.books.channels, env.consumers, p.nextListener);
    if pick.Some? {
      assert env.consumers[pick.value] in env.consumers;
      assert !IsHeldUp(p.books.channels, env.consumers[pick.value]);
    }
  }

  lemma TakenOnward(env: Env, p: Pass, q: Pass, r: Pass)
    requires q.attempts == p.attempts + |q.sent| - |p.sent| && |p.sent| <= |q.sent|
    requires q.sent <= r.sent
    requires AllTaken(env, q.sent, |p.sent|, p.attempts) && AllTaken(env, r.sent, |q.sent|, q.attempts)
    ensures AllTaken(env, r.sent, |p.sent|, p.attempts)
  {
    hide Taken;
    forall i | |p.sent| <= i < |r.sent|
      ensures Taken(env, r.sent[i], p.attempts + (i - |p.sent|))
    {
      if i < |q.sent| {
        assert q.sent[i] == r.sent[i];
      } else {
        assert q.attempts + (i - |q.sent|) == p.attempts + (i - |p.sent|);
      }
    }
  }

  /**
   * Messages go only to open connections whose sinks take them, and a pass is refused only when a
   * consumer whose turn it was has no open connection or a sink that did not take the attempt.
   */
  lemma {:induction false} SentWereTaken(env: Env, p: Pass)
    requires !p.refused
    ensures var r := Deliver(env, p);
      && r.attempts == p.attempts + |r.sent| - |p.sent| && p.sent <= r.sent
      && AllTaken(env, r.sent, |p.sent|, p.attempts)
      && (r.refused ==> TurnedAway(env, r.books.channels, r.attempts))
    decreases |p.messages|
  {
    hide *;
    if p.messages == [] {
      DeliverNothing(env, p);
    } else {
      TurnTaken(env, p);
      DeliverStep(env, p);
      var (q, more) := Turned(env, p);
      if more {
        MoreIsNotRefused(env, p);
        SentWereTaken(env, q);
        TakenOnward(env, p, q, Deliver(env, p));
      }
    }
  }

  lemma DeliverNothing(env: Env, p: Pass)
    requires p.messages == []
    ensures Deliver(env, p) == p && AllTaken(env, p.sent, |p.sent|, p.attempts)
  {
  }

  lemma MoreIsNotRefused(env: Env, p: Pass)
    requires p.messages != [] && !p.refused && Turned(env, p).1
    ensures !Turned(env, p).0.refused
  {
    hide Select, Distance, Book, AfterPushFront, Resolve;
  }

  /** The scan for the next message starts right behind the consumer just served. */
  lemma NextTurnIsBehind(channels: Channels, consumers: seq<Consumer>, next: nat)
    requires Select(channels, consumers, next).0.Some?
    ensures var (pick, after) := Select(channels, consumers, next);
      pick.value < |consumers| && after > next && after % |consumers| == (pick.value + 1) % |consumers|
  {
    SelectIsCompleteAndFirst(channels, consumers, next);
    hide Select, HasCapacity;
    var (pick, after) := Select(channels, consumers, next);
    var n, d := |consumers|, Distance(|consumers|, next, pick.value);
    assert Turn(n, next, d) == pick.value;
    ModAddOne(n, next + d);
  }

  lemma ModAddOne(n: nat, x: nat)
    requires n > 0
    ensures (x + 1) % n == (x % n + 1) % n
  {
    var q, k := x / n, x % n;
    assert x == n * q + k;
    if k + 1 < n {
      ModUnique(n, x + 1, q, k + 1);
    } else {
      assert x + 1 == n * (q + 1) + 0;
      ModUnique(n, x + 1, q + 1, 0);
      ModUnique(n, n, 1, 0);
    }
  }

  // What is put on the books.

  /** The entries that some messages add to a connection's records, in the order of sending. */
  function Entries(name: Octets, sent: seq<Sent>, conn: u64): seq<(Octets, u64)> {
    if sent == [] then []
    else
      (if !sent[0].consumer.noAck && sent[0].consumer.connId == conn then [(name, sent[0].message.id)] else [])
      + Entries(name, sent[1..], conn)
  }

  function RecordsIn(d: Records, conn: u64): seq<(Octets, u64)> {
    if conn in d then d[conn] else []
  }

  /** Each connection's records grow by what was sent to it for acknowledgement. */
  lemma {:induction false} BookAllRecords(b: Books, name: Octets, sent: seq<Sent>, conn: u64)
    ensures RecordsIn(BookAll(b, name, sent).deliveries, conn)
         == RecordsIn(b.deliveries, conn) + Entries(name, sent, conn)
    decreases |sent|
  {
    if sent != [] {
      BookAllRecords(Book(b, name, sent[0]), name, sent[1..], conn);
      hide Incremented;
    }
  }

  /** Message i is the last of those sent for acknowledgement that has this id. */
  ghost predicate LastWith(sent: seq<Sent>, id: u64, i: nat) {
    && i < |sent| && !sent[i].consumer.noAck && sent[i].message.id == id
    && forall j :: i < j < |sent| && !sent[j].consumer.noAck ==> sent[j].message.id != id
  }

  ghost predicate NoneWith(sent: seq<Sent>, id: u64) {
    forall i :: 0 <= i < |sent| && !sent[i].consumer.noAck ==> sent[i].message.id != id
  }

  /** What was sent last under an id is inflight and indexed; other ids stay as they were. */
  ghost predicate BookedAs(b: Books, r: Books, name: Octets, sent: seq<Sent>, id: u64) {
    && (NoneWith(sent, id) ==>
          && (id in r.inflight <==> id in b.inflight)
          && (id in r.inflight ==> r.inflight[id] == b.inflight[id])
          && (id in r.index <==> id in b.index)
          && (id in r.index ==> r.index[id] == b.index[id]))
    && forall i: nat :: i < |sent| && LastWith(sent, id, i) ==>
         && id in r.inflight && r.inflight[id] == sent[i].message
         && id in r.index && r.index[id] == name
  }

  lemma BookOne(b: Books, name: Octets, s: Sent, id: u64)
    ensures BookedAs(b, Book(b, name, s), name, [s], id)
  {
    hide Incremented, Append;
    assert LastWith([s], id, 0) || NoneWith([s], id) by { assert [s][0] == s; }
  }

  lemma NoneIn(s: Sent, rest: seq<Sent>, id: u64)
    ensures NoneWith([s] + rest, id) ==> NoneWith([s], id) && NoneWith(rest, id)
  {
    var all := [s] + rest;
    assert all[0] == s;
    assert forall i :: 0 <= i < |rest| ==> rest[i] == all[i + 1];
  }

  lemma LastIn(s: Sent, rest: seq<Sent>, id: u64, i: nat)
    requires LastWith([s] + rest, id, i)
    ensures i == 0 ==> NoneWith(rest, id) && LastWith([s], id, 0)
    ensures i > 0 ==> LastWith(rest, id, i - 1) && ([s] + rest)[i] == rest[i - 1]
  {
    var all := [s] + rest;
    assert forall j :: 0 <= j < |rest| ==> rest[j] == all[j + 1];
  }

  lemma BookedOn(b: Books, x: Books, r: Books, name: Octets, s: Sent, rest: seq<Sent>, id: u64)
    requires BookedAs(b, x, name, [s], id) && BookedAs(x, r, name, rest, id)
    ensures BookedAs(b, r, name, [s] + rest, id)
  {
    hide NoneWith, LastWith;
    var all := [s] + rest;
    NoneIn(s, rest, id);
    forall i: nat | LastWith(all, id, i)
      ensures i < |all| && id in r.inflight && r.inflight[id] == all[i].message && id in r.index && r.index[id] == name
    {
      LastIsThere(all, id, i);
      LastIn(s, rest, id, i);
    }
  }

  lemma LastIsThere(sent: seq<Sent>, id: u64, i: nat)
    requires LastWith(sent, id, i)
    ensures i < |sent|
  {
  }

  lemma {:induction false} BookAllBooks(b: Books, name: Octets, sent: seq<Sent>, id: u64)
    ensures BookedAs(b, BookAll(b, name, sent), name, sent, id)
    decreases |sent|
  {
    if sent != [] {
      var x := Book(b, name, sent[0]);
      var r := BookAll(x, name, sent[1..]);
      assert BookAll(b, name, sent) == r;
      BookAllBooks(x, name, sent[1..], id);
      BookOne(b, name, sent[0], id);
      hide *;
      BookedOn(b, x, r, name, sent[0], sent[1..], id);
      assert [sent[0]] + sent[1..] == sent;
    }
  }

  /**
   * A pass over one queue leaves every other queue and everything about connections alone; of its
   * own queue it changes what is ready and inflight, whose turn it is, and the count of deliveries,
   * by as many as were sent. What was sent for acknowledgement is inflight, indexed under the
   * queue, and on the records of its connection in the order of sending.
   */
  ghost predicate Passed(b: Broker, r: Broker, name: Octets, sent: seq<Sent>)
    requires name in b.queues
  {
    && r.queues.Keys == b.queues.Keys
    && (forall n <- b.queues :: n != name ==> r.queues[n] == b.queues[n])
    && r.connections == b.connections && r.exclusiveQueues == b.exclusiveQueues
    && r.consumerIndex == b.consumerIndex
    && var q, q' := b.queues[name], r.queues[name];
      && q'.statDelivered == q.statDelivered + |sent|
      && q' == q.(messages := q'.messages, inflight := q'.inflight, nextListener := q'.nextListener,
                  statDelivered := q'.statDelivered)
      && (forall conn: u64 :: RecordsIn(r.deliveries, conn)
                              == RecordsIn(b.deliveries, conn) + Entries(name, sent, conn))
      && forall id: u64 :: BookedAs(
           Books(q.inflight, b.index, b.deliveries, b.channels),
           Books(q'.inflight, r.index, r.deliveries, r.channels), name, sent, id)
  }

  lemma PassOutcome(b: Broker, name: Octets, read: PayloadReader, accepts: nat -> bool)
    requires name in b.queues && Descending(b.queues[name].messages)
    ensures var r := Deliver(EnvOf(b, name, read, accepts), PassOver(b, name));
      Passed(b, AfterPass(b, name, r), name, r.sent)
  {
    hide Deliver, BookAll, BookedAs, Entries, RecordsIn, TookFront, Descending;
    var env, p := EnvOf(b, name, read, accepts), PassOver(b, name);
    var r := Deliver(env, p);
    BooksAreSent(env, p);
    forall conn: u64
      ensures RecordsIn(r.books.deliveries, conn) == RecordsIn(b.deliveries, conn) + Entries(name, r.sent, conn)
    {
      BookAllRecords(p.books, name, r.sent, conn);
    }
    forall id: u64 ensures BookedAs(p.books, r.books, name, r.sent, id) {
      BookAllBooks(p.books, name, r.sent, id);
    }
  }

  lemma BooksAreSent(env: Env, p: Pass)
    requires p.sent == [] && !p.refused && Descending(p.messages)
    ensures var r := Deliver(env, p); r.books == BookAll(p.books, env.name, r.sent)
  {
    var sent, n := PassTakesFront(env, p);
    hide Deliver, BookAll, Descending;
    assert [] + sent == sent;
  }
}
