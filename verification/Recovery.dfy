// Recovery: replaying the log into the broker's queues, exchanges, bindings and schemas.
module Recovery {
  import opened Bytes
  import opened Readers
  import opened WalFormat
  import opened WalRecords
  import opened Messages
  import opened Exchanges
  import PriorityQueues
  import Segments

  datatype Schema =
    Schema(id: u64, raw: Octets, descriptorSet: Octets, messageName: Octets)

  datatype RestoredQueue = RestoredQueue(messages: seq<QueueMessage>, schema: Option<Schema>)

  datatype RestoredExchange =
    RestoredExchange(kind: ExchangeType, durable: bool, bindings: seq<Binding>)

  /** What recovery rebuilds. */
  datatype Image =
    Image(queues: map<Octets, RestoredQueue>, exchanges: map<Octets, RestoredExchange>)

  /** What replay asks of its surroundings: UTF-8 validity, and whether a schema compiles. */
  datatype Env = Env(utf8: Utf8, compiles: Schema -> bool)

  // Record parsers, in the order the fields are read.

  function ReadDeclareQueue(utf8: Utf8, data: Octets): (p: Parsed<Record>)
    ensures p.Ok? ==> p.value.DeclareQueueRecord?
  {
    var (name, s) :- TakeStr16(utf8, data);
    var (durable, s) :- TakeU8(s);
    Ok(DeclareQueueRecord(name, durable == 1), s)
  }

  /** Skips the rest of a record whose id is already acknowledged. */
  function ReadEnqueue(utf8: Utf8, acked: set<u64>, data: Octets)
    : (p: Parsed<Option<Record>>)
    ensures p.Ok? && p.value.Some? ==> p.value.value.EnqueueRecord?
  {
    var (queue, s) :- TakeStr16(utf8, data);
    var (msgId, s) :- TakeU64(s);
    if msgId in acked then Ok(None, s)
    else
      var (exchange, s) :- TakeStr16(utf8, s);
      var (routingKey, s) :- TakeStr16(utf8, s);
      var (headers, s) :- TakeBlob32(s);
      var (body, s) :- TakeBlob32(s);
      Ok(Some(EnqueueRecord(queue, msgId, exchange, routingKey, headers, body)), s)
  }

  function ReadDeclareExchange(utf8: Utf8, data: Octets): (p: Parsed<Record>)
    ensures p.Ok? ==> p.value.DeclareExchangeRecord?
  {
    var (name, s) :- TakeStr16(utf8, data);
    var (kind, s) :- TakeU8(s);
    var (durable, s) :- TakeU8(s);
    Ok(DeclareExchangeRecord(name, kind, durable == 1), s)
  }

  function ReadBind(utf8: Utf8, data: Octets): (p: Parsed<Record>)
    ensures p.Ok? ==> p.value.BindRecord?
  {
    var (exchange, s) :- TakeStr16(utf8, data);
    var (queue, s) :- TakeStr16(utf8, s);
    var (routingKey, s) :- TakeStr16(utf8, s);
    Ok(BindRecord(exchange, queue, routingKey), s)
  }

  function ReadSchema(utf8: Utf8, data: Octets): (p: Parsed<Record>)
    ensures p.Ok? ==> p.value.SchemaRecord?
  {
    var (schemaId, s) :- TakeU64(data);
    var (queue, s) :- TakeStr16(utf8, s);
    var (files, s) :- ReadSchemaFiles(s);
    var (message, s) :- TakeStr16(utf8, s);
    Ok(SchemaRecord(schemaId, queue, files.0, files.1, message), s)
  }

  function ReadSchemaFiles(data: Octets): Parsed<(Octets, Octets)> {
    var (raw, s) :- TakeBlob32(data);
    var (descriptors, s) :- TakeBlob32(s);
    Ok((raw, descriptors), s)
  }

  // The effect of one record.

  function Recovered(r: Record): QueueMessage
    requires r.EnqueueRecord?
  {
    Full(NewRouted(r.msgId, r.headers, r.body, r.exchange, r.routingKey).(redelivered := true))
  }

  function KindOf(b: byte): Option<ExchangeType> {
    match b
    case 0x00 => Some(Direct)
    case 0x01 => Some(Fanout)
    case 0x02 => Some(Topic)
    case 0x03 => Some(Headers)
    case _ => None
  }

  function BindIn(exchanges: map<Octets, RestoredExchange>, name: Octets, b: Binding)
    : map<Octets, RestoredExchange>
  {
    if name !in exchanges then exchanges
    else
      var ex := exchanges[name];
      exchanges[name := ex.(bindings := AddBinding(ex.bindings, b))]
  }

  function Apply(env: Env, img: Image, r: Record): Image {
    match r
    case DeclareQueueRecord(name, durable) =>
      if !durable then img
      else
        Image(if name in img.queues then img.queues else img.queues[name := RestoredQueue([], None)],
              BindIn(img.exchanges, [], Binding(name, name, None)))
    case EnqueueRecord(queue, _, _, _, _, _) =>
      if queue !in img.queues then img
      else
        var q := img.queues[queue];
        var messages := PriorityQueues.AfterPushBack(q.messages, Recovered(r));
        img.(queues := img.queues[queue := q.(messages := messages)])
    case AckRecord(_) => img
    case DeclareExchangeRecord(name, kind, durable) =>
      if !durable || KindOf(kind) == None || name in img.exchanges then img
      else
        img.(exchanges := img.exchanges[name := RestoredExchange(KindOf(kind).value, true, [])])
    case BindRecord(exchange, queue, key) =>
      img.(exchanges := BindIn(img.exchanges, exchange, Binding(queue, key, None)))
    case SchemaRecord(id, queue, raw, descriptors, message) =>
      var schema := Schema(id, raw, descriptors, message);
      if queue !in img.queues || !env.compiles(schema) then img
      else
        var q := img.queues[queue];
        img.(queues := img.queues[queue := q.(schema := Some(schema))])
  }

  /** One entry: a payload that cannot be read leaves everything as it is. */
  function Step(env: Env, acked: set<u64>, img: Image, e: Entry): Image {
    match e.kind
    case DeclareQueue => ApplyRead(env, img, ReadDeclareQueue(env.utf8, e.data))
    case Enqueue =>
      (match ReadEnqueue(env.utf8, acked, e.data)
       case Ok(Some(r), _) => Apply(env, img, r)
       case _ => img)
    case DeclareExchange => ApplyRead(env, img, ReadDeclareExchange(env.utf8, e.data))
    case Bind => ApplyRead(env, img, ReadBind(env.utf8, e.data))
    case SetQueueSchema => ApplyRead(env, img, ReadSchema(env.utf8, e.data))
    case Ack => img
    case RaftEntry => img
    case RaftVote => img
  }

  function ApplyRead(env: Env, img: Image, r: Parsed<Record>): Image {
    match r case Ok(record, _) => Apply(env, img, record) case Err(_) => img
  }

  function AckOf(e: Entry): Option<u64> {
    if e.kind == Ack && |e.data| >= 8 then Some(FromBE64(e.data[..8])) else None
  }

  function AckedIds(es: seq<Entry>): set<u64> {
    if es == [] then {}
    else
      AckedIds(es[..|es| - 1])
      + match AckOf(es[|es| - 1]) case Some(id) => {id} case None => {}
  }

  function ReplayWith(env: Env, acked: set<u64>, img: Image, es: seq<Entry>): Image {
    if es == [] then img
    else Step(env, acked, ReplayWith(env, acked, img, es[..|es| - 1]), es[|es| - 1])
  }

  /** Both passes: collect the acknowledged ids, then replay every entry in order. */
  function Replay(env: Env, img: Image, es: seq<Entry>): Image {
    ReplayWith(env, AckedIds(es), img, es)
  }

  lemma {:induction false} ReplayAppend(
    env: Env, acked: set<u64>, img: Image, a: seq<Entry>, b: seq<Entry>)
    ensures ReplayWith(env, acked, img, a + b)
         == ReplayWith(env, acked, ReplayWith(env, acked, img, a), b)
    decreases |b|
  {
    if b == [] {
      assert a + b == a;
    } else {
      assert (a + b)[..|a + b| - 1] == a + b[..|b| - 1];
      ReplayAppend(env, acked, img, a, b[..|b| - 1]);
    }
  }

  lemma {:induction false} AckedAppend(a: seq<Entry>, b: seq<Entry>)
    ensures AckedIds(a + b) == AckedIds(a) + AckedIds(b)
    decreases |b|
  {
    if b == [] {
      assert a + b == a;
    } else {
      assert (a + b)[..|a + b| - 1] == a + b[..|b| - 1];
      AckedAppend(a, b[..|b| - 1]);
    }
  }

  lemma {:induction false} AckedIdsSpec(es: seq<Entry>, id: u64)
    ensures id in AckedIds(es) <==> exists e :: e in es && AckOf(e) == Some(id)
  {
    if es != [] {
      AckedIdsSpec(es[..|es| - 1], id);
      assert es == es[..|es| - 1] + [es[|es| - 1]];
    }
  }

  // Replaying what was logged.

  function TypeOf(r: Record): EntryType {
    match r
    case DeclareQueueRecord(_, _) => DeclareQueue
    case EnqueueRecord(_, _, _, _, _, _) => Enqueue
    case AckRecord(_) => Ack
    case DeclareExchangeRecord(_, _, _) => DeclareExchange
    case BindRecord(_, _, _) => Bind
    case SchemaRecord(_, _, _, _, _) => SetQueueSchema
  }

  function EntryOf(r: Record): Entry {
    Entry(TypeOf(r), Encode(r))
  }

  /** The names in a record are strings. */
  predicate Textual(utf8: Utf8, r: Record) {
    match r
    case DeclareQueueRecord(name, _) => utf8(name)
    case EnqueueRecord(queue, _, exchange, key, _, _) => utf8(queue) && utf8(exchange) && utf8(key)
    case AckRecord(_) => true
    case DeclareExchangeRecord(name, _, _) => utf8(name)
    case BindRecord(exchange, queue, key) => utf8(exchange) && utf8(queue) && utf8(key)
    case SchemaRecord(_, queue, _, _, message) => utf8(queue) && utf8(message)
  }

  lemma TakeStr16Append(utf8: Utf8, x: Octets, t: Octets)
    requires |x| < TWO_16 && utf8(x)
    ensures TakeStr16(utf8, Str16(x) + t) == Ok(x, t)
  {
    TakeBlob16Append(x, t);
  }

  lemma ReadsDeclareQueue(utf8: Utf8, r: Record)
    requires r.DeclareQueueRecord? && Fits(r) && Textual(utf8, r)
    ensures ReadDeclareQueue(utf8, Encode(r)) == Ok(r, [])
  {
    hide Str16, TakeStr16;
    TakeStr16Append(utf8, r.name, [Flag(r.durable)]);
  }

  lemma ReadsEnqueue(utf8: Utf8, acked: set<u64>, r: Record)
    requires r.EnqueueRecord? && Fits(r) && Textual(utf8, r)
    ensures var p := ReadEnqueue(utf8, acked, Encode(r));
      p.Ok? && p.value == if r.msgId in acked then None else Some(r)
  {
    hide Str16, Blob32, BE64, FromBE64, TakeStr16, TakeBlob32, TakeU64;
    var s5 := Blob32(r.headers) + Blob32(r.body);
    var s3 := Str16(r.exchange) + (Str16(r.routingKey) + s5);
    TakeStr16Append(utf8, r.queue, BE64(r.msgId) + s3);
    TakeU64Append(r.msgId, s3);
    TakeStr16Append(utf8, r.exchange, Str16(r.routingKey) + s5);
    TakeStr16Append(utf8, r.routingKey, s5);
    TakeBlob32Append(r.headers, Blob32(r.body));
    TakeBlob32Append(r.body, []);
    assert Blob32(r.body) + [] == Blob32(r.body);
  }

  lemma ReadsDeclareExchange(utf8: Utf8, r: Record)
    requires r.DeclareExchangeRecord? && Fits(r) && Textual(utf8, r)
    ensures ReadDeclareExchange(utf8, Encode(r)) == Ok(r, [])
  {
    hide Str16, TakeStr16;
    TakeStr16Append(utf8, r.exName, [r.kind] + [Flag(r.exDurable)]);
  }

  lemma ReadsBind(utf8: Utf8, r: Record)
    requires r.BindRecord? && Fits(r) && Textual(utf8, r)
    ensures ReadBind(utf8, Encode(r)) == Ok(r, [])
  {
    hide Str16, TakeStr16;
    TakeStr16Append(utf8, r.bindExchange, Str16(r.bindQueue) + Str16(r.bindKey));
    TakeStr16Append(utf8, r.bindQueue, Str16(r.bindKey));
    TakeStr16Append(utf8, r.bindKey, []);
    assert Str16(r.bindKey) + [] == Str16(r.bindKey);
  }

  lemma ReadsSchema(utf8: Utf8, r: Record)
    requires r.SchemaRecord? && Fits(r) && Textual(utf8, r)
    ensures ReadSchema(utf8, Encode(r)) == Ok(r, [])
  {
    hide Str16, Blob32, BE64, FromBE64, TakeStr16, TakeBlob32, TakeU64;
    var s2 := Blob32(r.descriptorSet) + Str16(r.messageName);
    TakeU64Append(r.schemaId, Str16(r.schemaQueue) + (Blob32(r.rawProto) + s2));
    TakeStr16Append(utf8, r.schemaQueue, Blob32(r.rawProto) + s2);
    TakeBlob32Append(r.rawProto, s2);
    TakeBlob32Append(r.descriptorSet, Str16(r.messageName));
    assert ReadSchemaFiles(Blob32(r.rawProto) + s2)
        == Ok((r.rawProto, r.descriptorSet), Str16(r.messageName));
    TakeStr16Append(utf8, r.messageName, []);
    assert Str16(r.messageName) + [] == Str16(r.messageName);
  }

  /** Replay reads back exactly the record that was logged. */
  lemma ReadsWhatWasLogged(env: Env, acked: set<u64>, img: Image, r: Record)
    requires Fits(r) && Textual(env.utf8, r)
    ensures Step(env, acked, img, EntryOf(r)) ==
      if r.EnqueueRecord? && r.msgId in acked then img else Apply(env, img, r)
  {
    AckChangesNothing(env, img, r);
    hide Encode, Apply, ReadDeclareQueue, ReadEnqueue, ReadDeclareExchange, ReadBind, ReadSchema;
    match r
    case DeclareQueueRecord(_, _) => ReadsDeclareQueue(env.utf8, r);
    case EnqueueRecord(_, _, _, _, _, _) => ReadsEnqueue(env.utf8, acked, r);
    case AckRecord(_) =>
    case DeclareExchangeRecord(_, _, _) => ReadsDeclareExchange(env.utf8, r);
    case BindRecord(_, _, _) => ReadsBind(env.utf8, r);
    case SchemaRecord(_, _, _, _, _) => ReadsSchema(env.utf8, r);
  }

  lemma AckChangesNothing(env: Env, img: Image, r: Record)
    ensures r.AckRecord? ==> Apply(env, img, r) == img
  {
  }

  lemma AckOfLogged(r: Record)
    ensures AckOf(EntryOf(r)) == if r.AckRecord? then Some(r.ackId) else None
  {
    if r.AckRecord? {
      assert BE64(r.ackId)[..8] == BE64(r.ackId);
    }
  }

  function Logged(rs: seq<Record>): (es: seq<Entry>)
    ensures |es| == |rs| && forall i :: 0 <= i < |rs| ==> es[i] == EntryOf(rs[i])
  {
    if rs == [] then [] else Logged(rs[..|rs| - 1]) + [EntryOf(rs[|rs| - 1])]
  }

  function Acks(rs: seq<Record>): set<u64> {
    set r | r in rs && r.AckRecord? :: r.ackId
  }

  /** What a sequence of records means: every one applies, except acknowledged enqueues. */
  function Meaning(env: Env, acked: set<u64>, img: Image, rs: seq<Record>): Image {
    if rs == [] then img
    else
      var before, r := Meaning(env, acked, img, rs[..|rs| - 1]), rs[|rs| - 1];
      if r.EnqueueRecord? && r.msgId in acked then before else Apply(env, before, r)
  }

  predicate Loggable(env: Env, rs: seq<Record>) {
    forall r <- rs :: Fits(r) && Textual(env.utf8, r) && Sized(EntryOf(r))
  }

  lemma ReplayLast(env: Env, acked: set<u64>, img: Image, rs: seq<Record>)
    requires rs != []
    ensures var init, r := rs[..|rs| - 1], rs[|rs| - 1];
      && ReplayWith(env, acked, img, Logged(rs))
         == Step(env, acked, ReplayWith(env, acked, img, Logged(init)), EntryOf(r))
      && AckedIds(Logged(rs)) == AckedIds(Logged(init))
         + (match AckOf(EntryOf(r)) case Some(id) => {id} case None => {})
      && Meaning(env, acked, img, rs)
         == var before := Meaning(env, acked, img, init);
            if r.EnqueueRecord? && r.msgId in acked then before else Apply(env, before, r)
  {
    hide Step, Apply, AckOf, EntryOf;
    assert Logged(rs)[..|rs| - 1] == Logged(rs[..|rs| - 1]);
  }

  lemma AcksLast(rs: seq<Record>)
    requires rs != []
    ensures var r := rs[|rs| - 1];
      Acks(rs) == Acks(rs[..|rs| - 1]) + if r.AckRecord? then {r.ackId} else {}
  {
    assert rs == rs[..|rs| - 1] + [rs[|rs| - 1]];
  }

  lemma LoggableLast(env: Env, rs: seq<Record>)
    requires Loggable(env, rs) && rs != []
    ensures Loggable(env, rs[..|rs| - 1]) && Fits(rs[|rs| - 1]) && Textual(env.utf8, rs[|rs| - 1])
  {
    hide Fits, Textual, EntryOf;
  }

  lemma {:induction false} ReplayMeans(env: Env, acked: set<u64>, img: Image, rs: seq<Record>)
    requires Loggable(env, rs)
    ensures ReplayWith(env, acked, img, Logged(rs)) == Meaning(env, acked, img, rs)
    ensures AckedIds(Logged(rs)) == Acks(rs)
  {
    if rs != [] {
      hide *;
      var init, r := rs[..|rs| - 1], rs[|rs| - 1];
      LoggableLast(env, rs);
      ReplayMeans(env, acked, img, init);
      ReplayLast(env, acked, img, rs);
      AcksLast(rs);
      ReadsWhatWasLogged(env, acked, Meaning(env, acked, img, init), r);
      AckOfLogged(r);
    }
  }

  /**
   * A restart after any sequence of logged operations, with any segment size: recovery
   * rebuilds what the operations mean, with the acknowledged messages left out.
   */
  lemma RecoveryRebuildsMeaning(
    env: Env, crc: Checksum, limit: nat, img: Image, rs: seq<Record>)
    requires Loggable(env, rs)
    ensures Replay(env, img, Segments.ReadAll(crc,
              Segments.AppendAll(crc, limit, Segments.EMPTY_DISK, Logged(rs))))
         == Meaning(env, Acks(rs), img, rs)
  {
    assert AllSized(Logged(rs)) by {
      forall i | 0 <= i < |rs| ensures Sized(Logged(rs)[i]) { assert rs[i] in rs; }
    }
    Segments.SegmentationIsTransparent(crc, limit, Logged(rs));
    ReplayMeans(env, Acks(rs), img, rs);
  }

  lemma LoggableSized(env: Env, rs: seq<Record>)
    requires Loggable(env, rs)
    ensures AllSized(Logged(rs))
  {
    hide Logged, EntryOf, Fits, Textual, Sized;
    forall i | 0 <= i < |rs| ensures Sized(Logged(rs)[i]) {
      assert rs[i] in rs;
    }
  }

  lemma LoggablePrefix(env: Env, rs: seq<Record>, n: nat)
    requires Loggable(env, rs) && n <= |rs|
    ensures Loggable(env, rs[..n])
  {
    hide Fits, Textual, Sized, EntryOf;
    forall r | r in rs[..n] ensures r in rs {
    }
  }

  lemma LoggedPrefix(rs: seq<Record>, n: nat)
    requires n <= |rs|
    ensures Logged(rs)[..n] == Logged(rs[..n])
  {
    hide Logged, EntryOf;
    assert |Logged(rs)| == |rs| && |Logged(rs[..n])| == n;
    forall i | 0 <= i < n ensures Logged(rs)[..n][i] == Logged(rs[..n])[i] {
      assert Logged(rs)[i] == EntryOf(rs[i]) && Logged(rs[..n])[i] == EntryOf(rs[..n][i]);
    }
  }

  /**
   * A crash in the middle of a write, over any segments: when the active file is cut at any
   * byte, recovery rebuilds what the first n records mean. Those are all m records of the
   * closed segments, and of the others exactly the ones written wholly before the cut.
   */
  lemma CrashRecoversPrefix(
    env: Env, crc: Checksum, limit: nat, img: Image, rs: seq<Record>, cut: nat)
    returns (m: nat, n: nat)
    requires Loggable(env, rs)
    requires var d := Segments.AppendAll(crc, limit, Segments.EMPTY_DISK, Logged(rs));
      cut <= |d.files[d.active]|
    ensures var d := Segments.AppendAll(crc, limit, Segments.EMPTY_DISK, Logged(rs));
      && m <= n <= |rs|
      && Segments.ReadAll(crc, Segments.ClosedOnly(d)) == Logged(rs[..m])
      && Replay(env, img, Segments.ReadAll(crc, Segments.CutActive(d, cut)))
         == Meaning(env, Acks(rs[..n]), img, rs[..n])
      && |Frames(crc, Logged(rs)[m..n])| <= cut
      && (n < |rs| ==> cut < |Frames(crc, Logged(rs)[m..n + 1])|)
  {
    hide Logged, Meaning, Acks, Loggable, Frames, Segments.AppendAll, Segments.ReadAll;
    LoggableSized(env, rs);
    m, n := Segments.CrashLeavesPrefix(crc, limit, Logged(rs), cut);
    LoggedPrefix(rs, m);
    LoggedPrefix(rs, n);
    LoggablePrefix(env, rs, n);
    ReplayMeans(env, Acks(rs[..n]), img, rs[..n]);
  }

  // What recovery leaves in a queue.

  predicate DeclaredDurable(rs: seq<Record>, q: Octets) {
    exists i :: 0 <= i < |rs| && rs[i] == DeclareQueueRecord(q, true)
  }

  /** A message as it comes back: what was logged, with priority 0, and marked as redelivered. */
  function Redelivered(r: Record): QueueMessage
    requires r.EnqueueRecord?
  {
    Full(Message(r.msgId, r.headers, r.body, 0, None, true, 0, r.exchange, r.routingKey))
  }

  /** The messages enqueued to a declared queue and not acknowledged, in logging order. */
  function Survivors(acked: set<u64>, rs: seq<Record>, q: Octets): seq<QueueMessage> {
    if rs == [] then []
    else
      var before, r := rs[..|rs| - 1], rs[|rs| - 1];
      Survivors(acked, before, q)
      + if r.EnqueueRecord? && r.queue == q && r.msgId !in acked && DeclaredDurable(before, q)
        then [Redelivered(r)] else []
  }

  lemma DeclaredLast(rs: seq<Record>, q: Octets)
    requires rs != []
    ensures var n := |rs| - 1;
      DeclaredDurable(rs, q) <==> DeclaredDurable(rs[..n], q) || rs[n] == DeclareQueueRecord(q, true)
  {
    var n := |rs| - 1;
    assert forall i :: 0 <= i < n ==> rs[..n][i] == rs[i];
    if DeclaredDurable(rs[..n], q) {
      var i :| 0 <= i < n && rs[..n][i] == DeclareQueueRecord(q, true);
      assert rs[i] == DeclareQueueRecord(q, true);
    }
  }

  /**
   * Recovery into an empty broker restores exactly the queues declared durable, each holding
   * exactly its unacknowledged messages, oldest first and marked as redelivered.
   */
  lemma {:induction false} RecoveredQueues(
    env: Env, acked: set<u64>, img: Image, rs: seq<Record>, q: Octets)
    requires img.queues == map[]
    ensures var queues := Meaning(env, acked, img, rs).queues;
      && (q in queues <==> DeclaredDurable(rs, q))
      && (q in queues ==> queues[q].messages == Survivors(acked, rs, q))
      && (q !in queues ==> Survivors(acked, rs, q) == [])
  {
    if rs != [] {
      hide Apply, DeclaredDurable;
      var n := |rs| - 1;
      RecoveredQueues(env, acked, img, rs[..n], q);
      DeclaredLast(rs, q);
      ApplyToQueue(env, Meaning(env, acked, img, rs[..n]), rs[n], q);
    }
  }

  /** The effect of one record on one queue. */
  lemma ApplyToQueue(env: Env, img: Image, r: Record, q: Octets)
    ensures var queues := Apply(env, img, r).queues;
      && (q in queues <==> q in img.queues || r == DeclareQueueRecord(q, true))
      && (q in queues ==> queues[q].messages
                          == (if q in img.queues then img.queues[q].messages else [])
                             + (if r.EnqueueRecord? && r.queue == q then [Redelivered(r)] else []))
  {
    hide PriorityQueues.AfterPushBack, Recovered, Redelivered, BindIn, KindOf;
    if r.EnqueueRecord? && q in img.queues {
      PushedLast(img.queues[q].messages, r);
    }
  }

  lemma PushedLast(s: seq<QueueMessage>, r: Record)
    requires r.EnqueueRecord?
    ensures PriorityQueues.AfterPushBack(s, Recovered(r)) == s + [Redelivered(r)]
  {
    var n := PriorityQueues.Leading(s, 0);
    assert n == |s|;
    assert s[..n] == s && s[n..] == [];
  }

  // What recovery leaves of a queue's schema.

  /** A record that gives queue q a schema that compiles. */
  predicate Sets(env: Env, r: Record, q: Octets, s: Schema) {
    r == SchemaRecord(s.id, q, s.raw, s.descriptorSet, s.messageName) && env.compiles(s)
  }

  /** The last such record, behind a durable declaration of the queue. */
  ghost predicate LastSets(env: Env, rs: seq<Record>, q: Octets, s: Schema, i: nat) {
    && i < |rs| && Sets(env, rs[i], q, s) && DeclaredDurable(rs[..i], q)
    && forall j, t :: i < j < |rs| ==> !Sets(env, rs[j], q, t)
  }

  ghost predicate HasSchema(env: Env, rs: seq<Record>, q: Octets, s: Schema) {
    exists i: nat :: LastSets(env, rs, q, s, i)
  }

  lemma HasSchemaLast(env: Env, rs: seq<Record>, q: Octets, s: Schema)
    requires rs != []
    ensures var n := |rs| - 1;
      HasSchema(env, rs, q, s) <==>
        || (Sets(env, rs[n], q, s) && DeclaredDurable(rs[..n], q))
        || (HasSchema(env, rs[..n], q, s) && forall t :: !Sets(env, rs[n], q, t))
  {
    hide Sets, DeclaredDurable;
    var n := |rs| - 1;
    forall i: nat | i < n ensures rs[..n][..i] == rs[..i] && rs[..n][i] == rs[i] {
    }
    if Sets(env, rs[n], q, s) && DeclaredDurable(rs[..n], q) {
      assert LastSets(env, rs, q, s, n);
    }
    if HasSchema(env, rs[..n], q, s) && forall t :: !Sets(env, rs[n], q, t) {
      var i: nat :| LastSets(env, rs[..n], q, s, i);
      assert LastSets(env, rs, q, s, i);
    }
    if HasSchema(env, rs, q, s) {
      var i: nat :| LastSets(env, rs, q, s, i);
      if i < n {
        assert LastSets(env, rs[..n], q, s, i);
      }
    }
  }

  lemma ApplyToSchema(env: Env, img: Image, r: Record, q: Octets, s: Schema)
    ensures var queues := Apply(env, img, r).queues;
      q in queues ==>
        (queues[q].schema == Some(s) <==>
          && q in img.queues
          && (|| Sets(env, r, q, s)
              || (img.queues[q].schema == Some(s) && forall t :: !Sets(env, r, q, t))))
  {
    hide PriorityQueues.AfterPushBack, BindIn;
    if r.SchemaRecord? && r.schemaQueue == q {
      var t := Schema(r.schemaId, r.rawProto, r.descriptorSet, r.messageName);
      assert env.compiles(t) ==> Sets(env, r, q, t);
    }
  }

  lemma NotASchema(env: Env, r: Record, q: Octets)
    ensures r.EnqueueRecord? || r.DeclareQueueRecord? ==> forall t :: !Sets(env, r, q, t)
  {
  }

  lemma OnlyDeclaredHaveSchema(env: Env, rs: seq<Record>, q: Octets, s: Schema)
    requires HasSchema(env, rs, q, s)
    ensures DeclaredDurable(rs, q)
  {
    hide Sets;
    var i: nat :| LastSets(env, rs, q, s, i);
    var j :| 0 <= j < i && rs[..i][j] == DeclareQueueRecord(q, true);
    assert rs[j] == DeclareQueueRecord(q, true);
  }

  /**
   * Recovery into an empty broker gives a queue the schema of the last record that names the
   * queue after its declaration and compiles, and no schema when there is no such record.
   */
  lemma {:induction false} RecoveredSchema(
    env: Env, acked: set<u64>, img: Image, rs: seq<Record>, q: Octets, s: Schema)
    requires img.queues == map[]
    ensures var queues := Meaning(env, acked, img, rs).queues;
      q in queues ==> (queues[q].schema == Some(s) <==> HasSchema(env, rs, q, s))
  {
    if rs != [] {
      hide Apply, DeclaredDurable, HasSchema, Sets;
      var n := |rs| - 1;
      RecoveredSchema(env, acked, img, rs[..n], q, s);
      RecoveredQueues(env, acked, img, rs[..n], q);
      HasSchemaLast(env, rs, q, s);
      NotASchema(env, rs[n], q);
      if HasSchema(env, rs[..n], q, s) { OnlyDeclaredHaveSchema(env, rs[..n], q, s); }
      ApplyToQueue(env, Meaning(env, acked, img, rs[..n]), rs[n], q);
      ApplyToSchema(env, Meaning(env, acked, img, rs[..n]), rs[n], q, s);
    }
  }

  // What recovery leaves of the exchanges.

  /** A durable declaration of exchange x with one of the four kinds. */
  predicate Declares(r: Record, x: Octets) {
    r.DeclareExchangeRecord? && r.exName == x && r.exDurable && r.kind <= 3
  }

  ghost predicate FirstDeclares(rs: seq<Record>, x: Octets, d: nat) {
    d < |rs| && Declares(rs[d], x) && forall i :: 0 <= i < d ==> !Declares(rs[i], x)
  }

  /** Durable queues are bound to the default exchange, whose name is empty, by their own name. */
  predicate Binds(r: Record, x: Octets, q: Octets, key: Octets) {
    r == BindRecord(x, q, key) || (x == [] && key == q && r == DeclareQueueRecord(q, true))
  }

  ghost predicate BoundSince(rs: seq<Record>, from: nat, x: Octets, q: Octets, key: Octets) {
    exists i :: from <= i < |rs| && Binds(rs[i], x, q, key)
  }

  predicate Holds(ex: RestoredExchange, q: Octets, key: Octets) {
    exists b :: b in ex.bindings && b.queueName == q && b.routingKey == key
  }

  /** No binding is there twice, and none has header arguments, which are not logged. */
  predicate Plain(ex: RestoredExchange) {
    Distinct(ex.bindings) && forall b <- ex.bindings :: b.headersMatch == None
  }

  predicate IsKind(kind: ExchangeType, b: byte) {
    match b
    case 0 => kind == Direct
    case 1 => kind == Fanout
    case 2 => kind == Topic
    case 3 => kind == Headers
    case _ => false
  }

  /** A binding added to an exchange: that one is there, and nothing else changed. */
  lemma BindInAdds(exchanges: map<Octets, RestoredExchange>, name: Octets, q: Octets, key: Octets, x: Octets)
    ensures var out := BindIn(exchanges, name, Binding(q, key, None));
      && out.Keys == exchanges.Keys
      && (x in exchanges ==> Gained(exchanges[x], out[x], x == name, q, key))
  {
    hide Distinct;
    if x == name && x in exchanges { BindingAdded(exchanges[x].bindings, q, key); }
  }

  /** One exchange before and after, with one more binding when `bound`. */
  ghost predicate Gained(was: RestoredExchange, now: RestoredExchange, bound: bool, q: Octets, key: Octets) {
    && now.kind == was.kind && now.durable == was.durable && (Plain(was) ==> Plain(now))
    && forall r, k :: Holds(now, r, k) <==> Holds(was, r, k) || (bound && r == q && k == key)
  }

  lemma BindingAdded(bs: seq<Binding>, q: Octets, key: Octets)
    ensures var b, out := Binding(q, key, None), AddBinding(bs, Binding(q, key, None));
      && (Distinct(bs) ==> Distinct(out)) && (forall c <- out :: c in bs || c == b) && (forall c <- bs :: c in out)
      && exists c :: c in out && c.queueName == q && c.routingKey == key
  {
    var b, out := Binding(q, key, None), AddBinding(bs, Binding(q, key, None));
    if !Bound(bs, b) { assert out[|bs|] == b; }
  }

  lemma ApplyToExchange(env: Env, img: Image, r: Record, x: Octets)
    ensures var out := Apply(env, img, r).exchanges;
      && (x in out <==> x in img.exchanges || Declares(r, x))
      && (x in img.exchanges ==>
            && out[x].kind == img.exchanges[x].kind && out[x].durable == img.exchanges[x].durable
            && (Plain(img.exchanges[x]) ==> Plain(out[x]))
            && forall q, key :: Holds(out[x], q, key) <==> Holds(img.exchanges[x], q, key) || Binds(r, x, q, key))
      && (x !in img.exchanges && Declares(r, x) ==>
            out[x].bindings == [] && out[x].durable && IsKind(out[x].kind, r.kind))
  {
    hide PriorityQueues.AfterPushBack, BindIn, Recovered, Plain, Holds;
    match r {
      case DeclareQueueRecord(name, true) => BindInAdds(img.exchanges, [], name, name, x);
      case BindRecord(name, q, key) => BindInAdds(img.exchanges, name, q, key, x);
      case _ =>
    }
  }

  /** The same of an exchange through a run of records that leave it where it is. */
  ghost predicate Grown(was: RestoredExchange, now: RestoredExchange, rs: seq<Record>, from: nat, x: Octets) {
    && now.kind == was.kind && now.durable == was.durable && (Plain(was) ==> Plain(now))
    && forall q, key :: Holds(now, q, key) <==> Holds(was, q, key) || BoundSince(rs, from, x, q, key)
  }

  lemma GrownByOne(
    was: RestoredExchange, mid: RestoredExchange, now: RestoredExchange, rs: seq<Record>, from: nat, x: Octets)
    requires rs != [] && from < |rs| && Grown(was, mid, rs[..|rs| - 1], from, x)
    requires now.kind == mid.kind && now.durable == mid.durable && (Plain(mid) ==> Plain(now))
    requires forall q, key :: Holds(now, q, key) <==> Holds(mid, q, key) || Binds(rs[|rs| - 1], x, q, key)
    ensures Grown(was, now, rs, from, x)
  {
    hide Holds, Binds, Plain;
    var n := |rs| - 1;
    forall q, key
      ensures BoundSince(rs, from, x, q, key) <==> BoundSince(rs[..n], from, x, q, key) || Binds(rs[n], x, q, key)
    {
      assert forall i :: from <= i < n ==> rs[..n][i] == rs[i];
    }
  }

  /** An exchange that is there before the replay stays, with the bindings recorded for it. */
  lemma {:induction false} KeptExchange(env: Env, acked: set<u64>, img: Image, rs: seq<Record>, x: Octets)
    requires x in img.exchanges
    ensures var out := Meaning(env, acked, img, rs).exchanges;
      x in out && Grown(img.exchanges[x], out[x], rs, 0, x)
  {
    if rs == [] {
      hide Holds, Binds, Plain;
    } else {
      hide Apply, Grown;
      var n := |rs| - 1;
      var before := Meaning(env, acked, img, rs[..n]);
      KeptExchange(env, acked, img, rs[..n], x);
      ApplyToExchange(env, before, rs[n], x);
      NotABinding(rs[n], x);
      GrownByOne(img.exchanges[x], before.exchanges[x], Meaning(env, acked, img, rs).exchanges[x], rs, 0, x);
    }
  }

  lemma NotABinding(r: Record, x: Octets)
    ensures r.EnqueueRecord? ==> !Declares(r, x) && forall q, key :: !Binds(r, x, q, key)
  {
  }

  lemma FirstIsFirst(rs: seq<Record>, x: Octets, d: nat)
    requires FirstDeclares(rs, x, d)
    ensures d < |rs| && Declares(rs[d], x) && forall i :: 0 <= i < d ==> !Declares(rs[i], x)
  {
  }

  lemma FirstDeclaresBefore(rs: seq<Record>, x: Octets, d: nat)
    requires rs != []
    ensures d < |rs| - 1 ==> (FirstDeclares(rs, x, d) <==> FirstDeclares(rs[..|rs| - 1], x, d))
  {
    hide Declares;
    assert forall i :: 0 <= i < |rs| - 1 ==> rs[..|rs| - 1][i] == rs[i];
  }

  /** What an exchange is restored as: the kind that record d names, and the bindings made since. */
  ghost predicate RestoredAt(ex: RestoredExchange, rs: seq<Record>, x: Octets, d: nat)
    requires d < |rs|
  {
    && Declares(rs[d], x) && IsKind(ex.kind, rs[d].kind) && ex.durable && Plain(ex)
    && forall q, key :: Holds(ex, q, key) <==> BoundSince(rs, d + 1, x, q, key)
  }

  lemma RestoredJustNow(ex: RestoredExchange, rs: seq<Record>, x: Octets)
    requires rs != [] && Declares(rs[|rs| - 1], x)
    requires ex.bindings == [] && ex.durable && IsKind(ex.kind, rs[|rs| - 1].kind)
    ensures RestoredAt(ex, rs, x, |rs| - 1)
  {
    hide Declares, Binds, IsKind;
  }

  lemma RestoredBefore(mid: RestoredExchange, now: RestoredExchange, rs: seq<Record>, x: Octets, d: nat)
    requires d < |rs| - 1 && RestoredAt(mid, rs[..|rs| - 1], x, d)
    requires now.kind == mid.kind && now.durable == mid.durable && (Plain(mid) ==> Plain(now))
    requires forall q, key :: Holds(now, q, key) <==> Holds(mid, q, key) || Binds(rs[|rs| - 1], x, q, key)
    ensures RestoredAt(now, rs, x, d)
  {
    hide Declares, Binds, IsKind, Holds, Plain;
    var n := |rs| - 1;
    forall q, key
      ensures BoundSince(rs, d + 1, x, q, key) <==> BoundSince(rs[..n], d + 1, x, q, key) || Binds(rs[n], x, q, key)
    {
      assert forall i :: d < i < n ==> rs[..n][i] == rs[i];
    }
  }

  /**
   * Recovery restores an exchange that was not there exactly when a durable declaration names
   * one of the four kinds. It then has the kind of the first such declaration, and binds a
   * queue by a key exactly when a bind record says so after that declaration; for the default
   * exchange durable queue declarations count as well.
   */
  lemma {:induction false} RecoveredExchanges(
    env: Env, acked: set<u64>, img: Image, rs: seq<Record>, x: Octets)
    requires x !in img.exchanges
    ensures var out := Meaning(env, acked, img, rs).exchanges;
      && (x in out <==> exists i :: 0 <= i < |rs| && Declares(rs[i], x))
      && forall d: nat :: FirstDeclares(rs, x, d) ==> x in out && RestoredAt(out[x], rs, x, d)
  {
    if rs != [] {
      hide Apply, RestoredAt, FirstDeclares, Declares, Holds, Binds, Plain, IsKind;
      var n := |rs| - 1;
      var before, out := Meaning(env, acked, img, rs[..n]).exchanges, Meaning(env, acked, img, rs).exchanges;
      RecoveredExchanges(env, acked, img, rs[..n], x);
      ApplyToExchange(env, Meaning(env, acked, img, rs[..n]), rs[n], x);
      NotABinding(rs[n], x);
      assert forall i :: 0 <= i < n ==> rs[..n][i] == rs[i];
      forall d: nat | FirstDeclares(rs, x, d) ensures x in out && RestoredAt(out[x], rs, x, d) {
        FirstIsFirst(rs, x, d);
        FirstDeclaresBefore(rs, x, d);
        if d < n {
          RestoredBefore(before[x], out[x], rs, x, d);
        } else {
          RestoredJustNow(out[x], rs, x);
        }
      }
    }
  }

  // The imperative replay: reading one payload, field by field.

  method ParseDeclareQueue(utf8: Utf8, data: Octets) returns (r: Outcome<Record>)
    ensures r == OutcomeOf(ReadDeclareQueue(utf8, data))
  {
    var reader := new ByteReader(data);
    var name :- reader.ReadStringU16(utf8);
    var durable :- reader.ReadU8();
    r := Success(DeclareQueueRecord(name, durable == 1));
  }

  method ParseEnqueue(utf8: Utf8, acked: set<u64>, data: Octets)
    returns (r: Outcome<Option<Record>>)
    ensures r == OutcomeOf(ReadEnqueue(utf8, acked, data))
  {
    var reader := new ByteReader(data);
    var queueName :- reader.ReadStringU16(utf8);
    var msgId :- reader.ReadU64();
    if msgId in acked {
      return Success(None);
    }
    var exchange :- reader.ReadStringU16(utf8);
    var routingKey :- reader.ReadStringU16(utf8);
    var headers :- reader.ReadBytesU32();
    var body :- reader.ReadBytesU32();
    r := Success(Some(EnqueueRecord(queueName, msgId, exchange, routingKey, headers, body)));
  }

  method ParseDeclareExchange(utf8: Utf8, data: Octets) returns (r: Outcome<Record>)
    ensures r == OutcomeOf(ReadDeclareExchange(utf8, data))
  {
    var reader := new ByteReader(data);
    var name :- reader.ReadStringU16(utf8);
    var kindByte :- reader.ReadU8();
    var durable :- reader.ReadU8();
    r := Success(DeclareExchangeRecord(name, kindByte, durable == 1));
  }

  method ParseBind(utf8: Utf8, data: Octets) returns (r: Outcome<Record>)
    ensures r == OutcomeOf(ReadBind(utf8, data))
  {
    var reader := new ByteReader(data);
    var exchange :- reader.ReadStringU16(utf8);
    var queue :- reader.ReadStringU16(utf8);
    var routingKey :- reader.ReadStringU16(utf8);
    r := Success(BindRecord(exchange, queue, routingKey));
  }

  method ParseSchema(utf8: Utf8, data: Octets) returns (r: Outcome<Record>)
    ensures r == OutcomeOf(ReadSchema(utf8, data))
  {
    var reader := new ByteReader(data);
    var schemaId :- reader.ReadU64();
    var queueName :- reader.ReadStringU16(utf8);
    var files :- ParseSchemaFiles(reader);
    var messageName :- reader.ReadStringU16(utf8);
    r := Success(SchemaRecord(schemaId, queueName, files.0, files.1, messageName));
  }

  method ParseSchemaFiles(reader: ByteReader) returns (r: Outcome<(Octets, Octets)>)
    requires reader.Valid()
    modifies reader
    ensures reader.Valid() && r == OutcomeOf(ReadSchemaFiles(old(reader.rest)))
    ensures r.Success? ==> reader.rest == ReadSchemaFiles(old(reader.rest)).rest
  {
    var raw :- reader.ReadBytesU32();
    var descriptors :- reader.ReadBytesU32();
    r := Success((raw, descriptors));
  }

  class RecoveringBroker {
    const env: Env
    var queues: map<Octets, RestoredQueue>
    var exchanges: map<Octets, RestoredExchange>

    function View(): Image
      reads this
    {
      Image(queues, exchanges)
    }

    constructor (env: Env, img: Image)
      ensures this.env == env && View() == img
    {
      this.env, this.queues, this.exchanges := env, img.queues, img.exchanges;
    }

    method AutoBindDefaultExchange(queue: Octets)
      modifies this
      ensures queues == old(queues)
      ensures exchanges == BindIn(old(exchanges), [], Binding(queue, queue, None))
    {
      if [] !in exchanges {
        return;
      }
      var ex := exchanges[[]];
      exchanges := exchanges[[] := ex.(bindings := AddBinding(ex.bindings, Binding(queue, queue, None)))];
    }

    method ReplayDeclareQueue(data: Octets) returns (r: Outcome<()>)
      modifies this
      ensures View() == ApplyRead(env, old(View()), ReadDeclareQueue(env.utf8, data))
      ensures r.Success? <==> ReadDeclareQueue(env.utf8, data).Ok?
    {
      var record :- ParseDeclareQueue(env.utf8, data);
      if record.durable {
        if record.name !in queues {
          queues := queues[record.name := RestoredQueue([], None)];
        }
        AutoBindDefaultExchange(record.name);
      }
      r := Success(());
    }

    method ReplaySetQueueSchema(data: Octets) returns (r: Outcome<()>)
      modifies this
      ensures View() == ApplyRead(env, old(View()), ReadSchema(env.utf8, data))
      ensures r.Success? <==> ReadSchema(env.utf8, data).Ok?
    {
      hide ReadSchema;
      var record :- ParseSchema(env.utf8, data);
      var queue := record.schemaQueue;
      if queue in queues {
        var schema := Schema(record.schemaId, record.rawProto, record.descriptorSet, record.messageName);
        if env.compiles(schema) {
          queues := queues[queue := queues[queue].(schema := Some(schema))];
        }
      }
      r := Success(());
    }

    method ReplayEnqueue(data: Octets, acked: set<u64>) returns (r: Outcome<()>)
      modifies this
      ensures View() == Step(env, acked, old(View()), Entry(Enqueue, data))
      ensures r.Success? <==> ReadEnqueue(env.utf8, acked, data).Ok?
    {
      var parsed :- ParseEnqueue(env.utf8, acked, data);
      if parsed == None {
        return Success(());
      }
      var record := parsed.value;
      if record.queue in queues {
        var msg := NewRouted(record.msgId, record.headers, record.body,
                             record.exchange, record.routingKey);
        msg := msg.(redelivered := true);
        var q := queues[record.queue];
        queues := queues[record.queue :=
          q.(messages := PriorityQueues.AfterPushBack(q.messages, Full(msg)))];
      }
      r := Success(());
    }

    method ReplayDeclareExchange(data: Octets) returns (r: Outcome<()>)
      modifies this
      ensures View() == ApplyRead(env, old(View()), ReadDeclareExchange(env.utf8, data))
      ensures r.Success? <==>
        match ReadDeclareExchange(env.utf8, data)
        case Ok(record, _) => record.exDurable ==> KindOf(record.kind).Some?
        case Err(_) => false
    {
      var record :- ParseDeclareExchange(env.utf8, data);
      if !record.exDurable {
        return Success(());
      }
      var kind := KindOf(record.kind);
      if kind == None {
        return Failure(InvalidTag(record.kind));
      }
      if record.exName !in exchanges {
        exchanges := exchanges[record.exName := RestoredExchange(kind.value, true, [])];
      }
      r := Success(());
    }

    method ReplayBind(data: Octets) returns (r: Outcome<()>)
      modifies this
      ensures View() == ApplyRead(env, old(View()), ReadBind(env.utf8, data))
      ensures r.Success? <==> ReadBind(env.utf8, data).Ok?
    {
      var record :- ParseBind(env.utf8, data);
      if record.bindExchange in exchanges {
        var ex := exchanges[record.bindExchange];
        var b := Binding(record.bindQueue, record.bindKey, None);
        exchanges := exchanges[record.bindExchange := ex.(bindings := AddBinding(ex.bindings, b))];
      }
      r := Success(());
    }

    method ReplayEntries(entries: seq<Entry>)
      modifies this
      ensures View() == Replay(env, old(View()), entries)
    {
      var acked := CollectAcked(entries);
      for i := 0 to |entries|
        invariant View() == ReplayWith(env, acked, old(View()), entries[..i])
      {
        var entry := entries[i];
        assert entries[..i + 1][..i] == entries[..i];
        match entry.kind {
          case DeclareQueue => var _ := ReplayDeclareQueue(entry.data);
          case Enqueue => var _ := ReplayEnqueue(entry.data, acked);
          case DeclareExchange => var _ := ReplayDeclareExchange(entry.data);
          case Bind => var _ := ReplayBind(entry.data);
          case SetQueueSchema => var _ := ReplaySetQueueSchema(entry.data);
          case Ack =>
          case RaftEntry =>
          case RaftVote =>
        }
      }
      assert entries[..|entries|] == entries;
    }
  }

  method CollectAcked(entries: seq<Entry>) returns (acked: set<u64>)
    ensures acked == AckedIds(entries)
  {
    acked := {};
    for i := 0 to |entries|
      invariant acked == AckedIds(entries[..i])
    {
      var entry := entries[i];
      assert entries[..i + 1][..i] == entries[..i];
      if entry.kind == Ack && |entry.data| >= 8 {
        acked := acked + {FromBE64(entry.data[..8])};
      }
    }
    assert entries[..|entries|] == entries;
  }
}
