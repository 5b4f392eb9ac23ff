// Compaction: rewriting the log without acknowledged messages must not change what
// recovery rebuilds, now or after any later appends.
module Compaction {
  import opened Bytes
  import opened WalFormat
  import opened WalRecords
  import opened Segments
  import opened Recovery
  import Messages
  import Wal

  /** The id at its place in an enqueue payload, found without validating the queue name. */
  function EnqueueIdAt(data: Octets): Option<u64> {
    if |data| < 4 then None
    else
      var queueLen: int := FromBE16(data[..2]);
      if |data| < 2 + queueLen + 8 then None
      else Some(FromBE64(data[2 + queueLen..2 + queueLen + 8]))
  }

  predicate IsAckedEntry(e: Entry, acked: set<u64>) {
    match e.kind
    case Enqueue => EnqueueIdAt(e.data).Some? && EnqueueIdAt(e.data).value in acked
    case Ack => AckOf(e).Some? && AckOf(e).value in acked
    case _ => false
  }

  /** The entries that compaction keeps, in order. */
  function Kept(es: seq<Entry>, acked: set<u64>): seq<Entry> {
    if es == [] then []
    else
      var last := es[|es| - 1];
      Kept(es[..|es| - 1], acked) + if IsAckedEntry(last, acked) then [] else [last]
  }

  lemma KeptSnoc(es: seq<Entry>, e: Entry, acked: set<u64>)
    ensures Kept(es + [e], acked) == Kept(es, acked) + if IsAckedEntry(e, acked) then [] else [e]
  {
    assert (es + [e])[..|es|] == es;
  }

  function Compacted(es: seq<Entry>): seq<Entry> {
    Kept(es, AckedIds(es))
  }

  lemma {:induction false} KeptMembers(es: seq<Entry>, acked: set<u64>)
    ensures forall e :: e in Kept(es, acked) <==> e in es && !IsAckedEntry(e, acked)
  {
    if es != [] {
      KeptMembers(es[..|es| - 1], acked);
      assert es == es[..|es| - 1] + [es[|es| - 1]];
    }
  }

  lemma {:induction false} KeptSized(es: seq<Entry>, acked: set<u64>)
    requires AllSized(es)
    ensures AllSized(Kept(es, acked)) && |Kept(es, acked)| <= |es|
  {
    if es != [] {
      KeptSized(es[..|es| - 1], acked);
    }
  }

  /** No acknowledgement survives, so compacting twice is compacting once. */
  lemma CompactedHoldsNoAcks(es: seq<Entry>)
    ensures AckedIds(Compacted(es)) == {}
    ensures Compacted(Compacted(es)) == Compacted(es)
  {
    var acked := AckedIds(es);
    KeptMembers(es, acked);
    forall id: u64 | id in AckedIds(Compacted(es))
      ensures false
    {
      AckedIdsSpec(Compacted(es), id);
      var e :| e in Compacted(es) && AckOf(e) == Some(id);
      AckedIdsSpec(es, id);
    }
    KeepsAll(Compacted(es), {});
  }

  lemma {:induction false} KeepsAll(es: seq<Entry>, acked: set<u64>)
    requires forall e <- es :: !IsAckedEntry(e, acked)
    ensures Kept(es, acked) == es
  {
    if es != [] {
      KeepsAll(es[..|es| - 1], acked);
      assert es == es[..|es| - 1] + [es[|es| - 1]];
    }
  }

  // What compaction and replay each see in an enqueue payload.

  function ReadOf(env: Env, e: Entry): Option<Record> {
    match e.kind
    case DeclareQueue => RecordIn(ReadDeclareQueue(env.utf8, e.data))
    case Enqueue =>
      (match ReadEnqueue(env.utf8, {}, e.data) case Ok(r, _) => r case Err(_) => None)
    case DeclareExchange => RecordIn(ReadDeclareExchange(env.utf8, e.data))
    case Bind => RecordIn(ReadBind(env.utf8, e.data))
    case SetQueueSchema => RecordIn(ReadSchema(env.utf8, e.data))
    case _ => None
  }

  function RecordIn(p: Parsed<Record>): Option<Record> {
    match p case Ok(r, _) => Some(r) case Err(_) => None
  }

  /** An enqueue entry whose whole payload can be read, with this id. */
  predicate Enqueues(env: Env, e: Entry, id: u64) {
    match ReadOf(env, e) case Some(r) => r.EnqueueRecord? && r.msgId == id case None => false
  }

  /** Stopping early at an acknowledged id changes nothing but the outcome reported. */
  lemma ReadEnqueueEarly(utf8: Utf8, acked: set<u64>, data: Octets)
    ensures var full := ReadEnqueue(utf8, {}, data);
      var p := ReadEnqueue(utf8, acked, data);
      if full.Ok? && full.value.Some? && full.value.value.msgId !in acked then p == full
      else p.Err? || p.value == None
  {
    hide TakeStr16, TakeU64, TakeBlob32;
  }

  /** A step applies the record that can be read, unless it enqueues an acknowledged id. */
  lemma StepAppliesRead(env: Env, acked: set<u64>, img: Image, e: Entry)
    ensures Step(env, acked, img, e) ==
      match ReadOf(env, e)
      case Some(r) => if r.EnqueueRecord? && r.msgId in acked then img else Apply(env, img, r)
      case None => img
  {
    ReadEnqueueEarly(env.utf8, acked, e.data);
    hide ReadEnqueue, ReadDeclareQueue, ReadDeclareExchange, ReadBind, ReadSchema, Apply;
  }

  /** The id that compaction looks at is the id that replay reads. */
  lemma SameId(env: Env, e: Entry, id: u64)
    requires Enqueues(env, e, id)
    ensures EnqueueIdAt(e.data) == Some(id)
  {
    hide FromBE64, FromBE16;
    var n: int := FromBE16(e.data[..2]);
    assert e.data[2..][n..][..8] == e.data[2 + n..2 + n + 8];
  }

  // Replays that differ only in the set of acknowledged ids.

  /** Both sets make the same decision about every message the entries could restore. */
  ghost predicate SameDecisions(env: Env, a: set<u64>, b: set<u64>, es: seq<Entry>) {
    forall e, id: u64 :: e in es && Enqueues(env, e, id) ==> (id in a <==> id in b)
  }

  lemma {:induction false} ReplaySameDecisions(
    env: Env, a: set<u64>, b: set<u64>, img: Image, es: seq<Entry>)
    requires SameDecisions(env, a, b, es)
    ensures ReplayWith(env, a, img, es) == ReplayWith(env, b, img, es)
  {
    hide ReadOf, Apply;
    if es != [] {
      var n := |es| - 1;
      ReplaySameDecisions(env, a, b, img, es[..n]);
      var before := ReplayWith(env, a, img, es[..n]);
      StepAppliesRead(env, a, before, es[n]);
      StepAppliesRead(env, b, before, es[n]);
      match ReadOf(env, es[n])
      case Some(r) => if r.EnqueueRecord? { assert Enqueues(env, es[n], r.msgId); }
      case None =>
    }
  }

  // Compaction as a log transformation.

  /**
   * Replaying under any set that includes the acknowledged ids, an entry that compaction
   * drops has no effect.
   */
  lemma DroppedHasNoEffect(env: Env, acked: set<u64>, dropped: set<u64>, img: Image, e: Entry)
    requires IsAckedEntry(e, dropped) && dropped <= acked
    ensures Step(env, acked, img, e) == img
  {
    StepAppliesRead(env, acked, img, e);
    match ReadOf(env, e)
    case Some(r) => if r.EnqueueRecord? { SameId(env, e, r.msgId); }
    case None =>
  }

  lemma KeptLast(es: seq<Entry>, dropped: set<u64>)
    requires es != []
    ensures var before := Kept(es[..|es| - 1], dropped);
      Kept(es, dropped) == if IsAckedEntry(es[|es| - 1], dropped) then before else before + [es[|es| - 1]]
  {
    hide IsAckedEntry;
  }

  lemma ReplayLast(env: Env, acked: set<u64>, img: Image, es: seq<Entry>, e: Entry)
    ensures ReplayWith(env, acked, img, es + [e]) == Step(env, acked, ReplayWith(env, acked, img, es), e)
  {
    hide Recovery.Step;
    assert (es + [e])[..|es|] == es;
  }

  lemma {:induction false} ReplayKept(
    env: Env, acked: set<u64>, dropped: set<u64>, img: Image, es: seq<Entry>)
    requires dropped <= acked
    ensures ReplayWith(env, acked, img, Kept(es, dropped)) == ReplayWith(env, acked, img, es)
  {
    hide Recovery.Step, IsAckedEntry;
    if es != [] {
      var n := |es| - 1;
      KeptLast(es, dropped);
      ReplayKept(env, acked, dropped, img, es[..n]);
      if IsAckedEntry(es[n], dropped) {
        DroppedHasNoEffect(env, acked, dropped, ReplayWith(env, acked, img, es[..n]), es[n]);
      } else {
        ReplayLast(env, acked, img, Kept(es[..n], dropped), es[n]);
      }
    }
  }

  /** What is kept of the log decides by the later acknowledgements alone. */
  lemma KeptDecidesAlike(env: Env, log: seq<Entry>, later: set<u64>)
    ensures SameDecisions(env, AckedIds(log) + later, later, Compacted(log))
  {
    KeptMembers(log, AckedIds(log));
    hide ReadOf;
    forall e, id: u64 | e in Compacted(log) && Enqueues(env, e, id)
      ensures id !in AckedIds(log)
    {
      SameId(env, e, id);
      EnqueuesIsEnqueue(env, e, id);
    }
  }

  lemma EnqueuesIsEnqueue(env: Env, e: Entry, id: u64)
    requires Enqueues(env, e, id)
    ensures e.kind == Enqueue
  {
  }

  /** The image after the log, with the suffix's acknowledgements already known. */
  function AfterLog(env: Env, img: Image, log: seq<Entry>, suffix: seq<Entry>): Image {
    ReplayWith(env, AckedIds(log + suffix), img, log)
  }

  /** Both replays have rebuilt the same when they reach the suffix. */
  lemma SameUpToSuffix(env: Env, img: Image, log: seq<Entry>, suffix: seq<Entry>)
    ensures AckedIds(Compacted(log) + suffix) == AckedIds(suffix)
    ensures AckedIds(log + suffix) == AckedIds(log) + AckedIds(suffix)
    ensures Replay(env, img, log + suffix)
         == ReplayWith(env, AckedIds(log + suffix), AfterLog(env, img, log, suffix), suffix)
    ensures Replay(env, img, Compacted(log) + suffix)
         == ReplayWith(env, AckedIds(suffix), AfterLog(env, img, log, suffix), suffix)
  {
    var a, s := AckedIds(log), AckedIds(suffix);
    AckedAppend(log, suffix);
    AckedAppend(Compacted(log), suffix);
    CompactedHoldsNoAcks(log);
    ReplayAppend(env, a + s, img, log, suffix);
    ReplayAppend(env, s, img, Compacted(log), suffix);
    ReplayKept(env, a + s, a, img, log);
    KeptDecidesAlike(env, log, s);
    ReplaySameDecisions(env, a + s, s, img, Compacted(log));
  }

  // When a suffix may tell the two logs apart.

  /** A queue exists after these entries: it did before, or one of them declares it durable. */
  ghost predicate QueueExists(env: Env, img: Image, es: seq<Entry>, q: Octets) {
    q in img.queues
    || exists i :: 0 <= i < |es| && ReadOf(env, es[i]) == Some(DeclareQueueRecord(q, true))
  }

  /** What replay rebuilds has exactly the queues that the entries declare. */
  lemma {:induction false} QueuesAfterReplay(
    env: Env, acked: set<u64>, img: Image, es: seq<Entry>, q: Octets)
    ensures q in ReplayWith(env, acked, img, es).queues <==> QueueExists(env, img, es, q)
  {
    if es != [] {
      var n := |es| - 1;
      QueuesAfterReplay(env, acked, img, es[..n], q);
      QueuesAfterStep(env, acked, ReplayWith(env, acked, img, es[..n]), es[n], q);
      OneMoreEntry(env, img, es, q);
      hide ReadOf, Step, QueueExists;
    }
  }

  lemma OneMoreEntry(env: Env, img: Image, es: seq<Entry>, q: Octets)
    requires es != []
    ensures QueueExists(env, img, es, q) <==>
            || QueueExists(env, img, es[..|es| - 1], q)
            || ReadOf(env, es[|es| - 1]) == Some(DeclareQueueRecord(q, true))
  {
    hide ReadOf;
    assert forall i :: 0 <= i < |es| - 1 ==> es[i] == es[..|es| - 1][i];
  }

  lemma QueuesAfterStep(env: Env, acked: set<u64>, img: Image, e: Entry, q: Octets)
    ensures q in Step(env, acked, img, e).queues <==>
            q in img.queues || ReadOf(env, e) == Some(DeclareQueueRecord(q, true))
  {
    StepAppliesRead(env, acked, img, e);
    hide ReadOf, Apply, Step;
    match ReadOf(env, e)
    case Some(r) => ApplyToQueue(env, img, r, q);
    case None =>
  }

  /**
   * The i-th entry of the suffix brings a message back: it enqueues, to a queue that exists at
   * that point, an id that the log acknowledges and the suffix does not.
   */
  ghost predicate Revives(env: Env, img: Image, log: seq<Entry>, suffix: seq<Entry>, i: nat)
    requires i < |suffix|
  {
    match ReadOf(env, suffix[i])
    case Some(r) =>
      && r.EnqueueRecord? && r.msgId in AckedIds(log) && r.msgId !in AckedIds(suffix)
      && QueueExists(env, img, log + suffix[..i], r.queue)
    case None => false
  }

  ghost predicate RevivesAcked(env: Env, img: Image, log: seq<Entry>, suffix: seq<Entry>) {
    exists i: nat :: i < |suffix| && Revives(env, img, log, suffix, i)
  }

  /** The same, seen from the image that replay has reached. */
  ghost predicate Drifts(env: Env, a: set<u64>, s: set<u64>, before: Image, e: Entry) {
    match ReadOf(env, e)
    case Some(r) =>
      && r.EnqueueRecord? && r.msgId in a && r.msgId !in s && r.queue in before.queues
    case None => false
  }

  lemma DriftsIffRevives(env: Env, img: Image, log: seq<Entry>, suffix: seq<Entry>, i: nat)
    requires i < |suffix|
    ensures var a, s := AckedIds(log), AckedIds(suffix);
      Drifts(env, a, s, ReplayWith(env, a + s, AfterLog(env, img, log, suffix), suffix[..i]), suffix[i])
      <==> Revives(env, img, log, suffix, i)
  {
    var all := AckedIds(log) + AckedIds(suffix);
    AckedAppend(log, suffix);
    ReplayAppend(env, all, img, log, suffix[..i]);
    hide ReadOf, AckedIds, QueueExists;
    match ReadOf(env, suffix[i])
    case Some(r) =>
      if r.EnqueueRecord? { QueuesAfterReplay(env, all, img, log + suffix[..i], r.queue); }
    case None =>
  }

  /** The same queues and exchanges, and nowhere more messages. */
  ghost predicate AtMost(o: Image, c: Image) {
    && o.queues.Keys == c.queues.Keys && o.exchanges == c.exchanges
    && forall q <- o.queues :: |o.queues[q].messages| <= |c.queues[q].messages|
  }

  ghost predicate Fewer(o: Image, c: Image) {
    AtMost(o, c) && exists q :: q in o.queues && |o.queues[q].messages| < |c.queues[q].messages|
  }

  lemma ApplyKeepsShape(env: Env, o: Image, c: Image, r: Record)
    requires o.queues.Keys == c.queues.Keys && o.exchanges == c.exchanges
    ensures Apply(env, o, r).queues.Keys == Apply(env, c, r).queues.Keys
    ensures Apply(env, o, r).exchanges == Apply(env, c, r).exchanges
  {
  }

  lemma ApplyKeepsSizes(env: Env, o: Image, c: Image, r: Record)
    requires AtMost(o, c)
    ensures AtMost(Apply(env, o, r), Apply(env, c, r))
    ensures Fewer(o, c) ==> Fewer(Apply(env, o, r), Apply(env, c, r))
  {
    ApplyKeepsShape(env, o, c, r);
    hide Apply;
    forall q | q in o.queues
      ensures q in Apply(env, o, r).queues && q in Apply(env, c, r).queues
      ensures |Apply(env, o, r).queues[q].messages| - |o.queues[q].messages|
           == |Apply(env, c, r).queues[q].messages| - |c.queues[q].messages|
    {
      ApplyToQueue(env, o, r, q);
      ApplyToQueue(env, c, r, q);
    }
  }

  lemma ReviveAddsOne(env: Env, o: Image, c: Image, r: Record)
    requires AtMost(o, c) && r.EnqueueRecord? && r.queue in o.queues
    ensures Fewer(o, Apply(env, c, r))
  {
    forall q | q in c.queues
      ensures q in Apply(env, c, r).queues
      ensures |Apply(env, c, r).queues[q].messages|
           == |c.queues[q].messages| + if q == r.queue then 1 else 0
    {
      ApplyToQueue(env, c, r, q);
    }
  }

  lemma StepKeepsSizes(env: Env, a: set<u64>, s: set<u64>, o: Image, c: Image, e: Entry)
    requires AtMost(o, c)
    ensures var (o1, c1) := (Step(env, a + s, o, e), Step(env, s, c, e));
      && AtMost(o1, c1)
      && (Fewer(o, c) || Drifts(env, a, s, o, e) ==> Fewer(o1, c1))
      && (o == c && !Drifts(env, a, s, o, e) ==> o1 == c1)
  {
    StepAppliesRead(env, a + s, o, e);
    StepAppliesRead(env, s, c, e);
    match ReadOf(env, e)
    case None =>
    case Some(r) =>
      ApplyKeepsSizes(env, o, c, r);
      if r.EnqueueRecord? && r.msgId in a && r.msgId !in s {
        if r.queue in o.queues {
          ReviveAddsOne(env, o, c, r);
        } else {
          assert Apply(env, c, r) == c;
        }
      }
  }

  /** Two replays of a suffix, from equal images, drift apart exactly at a revival. */
  lemma {:induction false} SuffixDrift(
    env: Env, a: set<u64>, s: set<u64>, start: Image, suffix: seq<Entry>)
    ensures var o, c := ReplayWith(env, a + s, start, suffix), ReplayWith(env, s, start, suffix);
      if exists i :: 0 <= i < |suffix|
                     && Drifts(env, a, s, ReplayWith(env, a + s, start, suffix[..i]), suffix[i])
      then Fewer(o, c) else o == c
  {
    hide Step, Drifts, Fewer, AtMost;
    if suffix != [] {
      var n := |suffix| - 1;
      var init := suffix[..n];
      SuffixDrift(env, a, s, start, init);
      forall i | 0 <= i < n
        ensures suffix[..i] == init[..i] && suffix[i] == init[i]
      {
      }
      var o, c := ReplayWith(env, a + s, start, init), ReplayWith(env, s, start, init);
      FewerIsAtMost(o, c);
      StepKeepsSizes(env, a, s, o, c, suffix[n]);
    }
  }

  lemma FewerIsAtMost(o: Image, c: Image)
    ensures Fewer(o, c) || o == c ==> AtMost(o, c)
  {
  }

  /**
   * Compaction is invisible to recovery, now and after any later appends: replaying the
   * compacted log and a suffix rebuilds what replaying the log and the suffix does, exactly
   * when the suffix does not bring an acknowledged message back.
   */
  lemma CompactionInvisibleIff(env: Env, img: Image, log: seq<Entry>, suffix: seq<Entry>)
    ensures Replay(env, img, Compacted(log) + suffix) == Replay(env, img, log + suffix)
       <==> !RevivesAcked(env, img, log, suffix)
  {
    SameUpToSuffix(env, img, log, suffix);
    SuffixDrift(env, AckedIds(log), AckedIds(suffix), AfterLog(env, img, log, suffix), suffix);
    hide Replay, AckedIds, Drifts, Revives, Compacted, AfterLog;
    forall i: nat | i < |suffix|
      ensures var a, s := AckedIds(log), AckedIds(suffix);
        Drifts(env, a, s, ReplayWith(env, a + s, AfterLog(env, img, log, suffix), suffix[..i]), suffix[i])
        <==> Revives(env, img, log, suffix, i)
    {
      DriftsIffRevives(env, img, log, suffix, i);
    }
  }

  /** In particular, as long as no acknowledged id is enqueued again. */
  lemma CompactionInvisible(env: Env, img: Image, log: seq<Entry>, suffix: seq<Entry>)
    requires forall e, id: u64 :: e in suffix && Enqueues(env, e, id) ==> id !in AckedIds(log)
    ensures Replay(env, img, Compacted(log) + suffix) == Replay(env, img, log + suffix)
  {
    CompactionInvisibleIff(env, img, log, suffix);
    hide Replay, QueueExists, ReadOf;
    forall i: nat | i < |suffix| ensures !Revives(env, img, log, suffix, i) {
      assert suffix[i] in suffix;
      match ReadOf(env, suffix[i])
      case Some(r) => assert r.EnqueueRecord? ==> Enqueues(env, suffix[i], r.msgId);
      case None =>
    }
  }

  /**
   * It does happen: a queue is declared, a message acknowledged, the log compacted, and the
   * same id enqueued again. The original log has no message after a restart, the compacted
   * one has this message.
   */
  lemma CompactionRevives(env: Env, r: Record)
    requires r.EnqueueRecord? && Fits(r) && Textual(env.utf8, r)
    ensures var img := Image(map[], map[]);
      var log := Logged([DeclareQueueRecord(r.queue, true), AckRecord(r.msgId)]);
      var suffix := Logged([r]);
      && RevivesAcked(env, img, log, suffix)
      && Holds(Replay(env, img, log + suffix), r.queue, [])
      && Holds(Replay(env, img, Compacted(log) + suffix), r.queue, [Recovered(r)])
  {
    hide *;
    var img := Image(map[], map[]);
    var declare, ack := DeclareQueueRecord(r.queue, true), AckRecord(r.msgId);
    var log, suffix := Logged([declare, ack]), Logged([r]);
    LoggedPair(declare, ack);
    LoggedOne(r);
    AcksOfThree(r);
    SameUpToSuffix(env, img, log, suffix);
    AfterLogIs(env, img, log, suffix);
    DeclaredAndAcked(env, r);
    EnqueuedAgain(env, Apply(env, img, declare), r);
    assert {r.msgId} + {} == {r.msgId};
    CompactionInvisibleIff(env, img, log, suffix);
    HoldDifferent(Replay(env, img, log + suffix), Replay(env, img, Compacted(log) + suffix), r);
  }

  lemma LoggedOne(r: Record)
    ensures Logged([r]) == [EntryOf(r)]
  {
    hide EntryOf;
    assert |Logged([r])| == 1;
  }

  lemma LoggedPair(a: Record, b: Record)
    ensures Logged([a, b]) == [EntryOf(a), EntryOf(b)]
  {
    hide EntryOf;
    assert |Logged([a, b])| == 2;
  }

  lemma AfterLogIs(env: Env, img: Image, log: seq<Entry>, suffix: seq<Entry>)
    ensures AfterLog(env, img, log, suffix)
         == ReplayWith(env, AckedIds(log) + AckedIds(suffix), img, log)
  {
    AckedAppend(log, suffix);
  }

  lemma HoldDifferent(a: Image, b: Image, r: Record)
    requires r.EnqueueRecord?
    ensures Holds(a, r.queue, []) && Holds(b, r.queue, [Recovered(r)]) ==> a != b
  {
  }

  lemma DeclaredAndAcked(env: Env, r: Record)
    requires r.EnqueueRecord? && Fits(r) && Textual(env.utf8, r)
    ensures var img, declare := Image(map[], map[]), DeclareQueueRecord(r.queue, true);
      && ReplayWith(env, {r.msgId}, img, [EntryOf(declare), EntryOf(AckRecord(r.msgId))])
         == Apply(env, img, declare)
      && Holds(Apply(env, img, declare), r.queue, [])
  {
    var img, declare := Image(map[], map[]), DeclareQueueRecord(r.queue, true);
    var ack := AckRecord(r.msgId);
    assert Fits(declare) && Textual(env.utf8, declare) && Fits(ack) && Textual(env.utf8, ack);
    assert Holds(Apply(env, img, declare), r.queue, []);
    assert Apply(env, Apply(env, img, declare), ack) == Apply(env, img, declare);
    hide Step, ReplayWith, EntryOf, Apply;
    TwoSteps(env, {r.msgId}, img, EntryOf(declare), EntryOf(ack));
    ReadsWhatWasLogged(env, {r.msgId}, img, declare);
    ReadsWhatWasLogged(env, {r.msgId}, Apply(env, img, declare), ack);
  }

  lemma EnqueuedAgain(env: Env, start: Image, r: Record)
    requires r.EnqueueRecord? && Fits(r) && Textual(env.utf8, r) && Holds(start, r.queue, [])
    ensures ReplayWith(env, {r.msgId}, start, [EntryOf(r)]) == start
    ensures Holds(ReplayWith(env, {}, start, [EntryOf(r)]), r.queue, [Recovered(r)])
  {
    ApplyToQueue(env, start, r, r.queue);
    hide Step, ReplayWith, EntryOf, Apply;
    ReadsWhatWasLogged(env, {r.msgId}, start, r);
    ReadsWhatWasLogged(env, {}, start, r);
    OneStep(env, {r.msgId}, start, EntryOf(r));
    OneStep(env, {}, start, EntryOf(r));
    assert [] + [Recovered(r)] == [Recovered(r)];
  }

  predicate Holds(img: Image, q: Octets, messages: seq<Messages.QueueMessage>) {
    q in img.queues && img.queues[q].messages == messages
  }

  lemma AcksOfOne(e: Entry)
    ensures AckedIds([e]) == match AckOf(e) case Some(id) => {id} case None => {}
  {
    hide AckOf;
    assert [e][..0] == [];
  }

  lemma AcksOfThree(r: Record)
    requires r.EnqueueRecord?
    ensures AckedIds([EntryOf(DeclareQueueRecord(r.queue, true)), EntryOf(AckRecord(r.msgId))])
         == {r.msgId}
    ensures AckedIds([EntryOf(r)]) == {}
  {
    var d, k := EntryOf(DeclareQueueRecord(r.queue, true)), EntryOf(AckRecord(r.msgId));
    AckOfLogged(DeclareQueueRecord(r.queue, true));
    AckOfLogged(AckRecord(r.msgId));
    AckOfLogged(r);
    hide EntryOf, AckOf, AckedIds;
    AckedAppend([d], [k]);
    AcksOfOne(d);
    AcksOfOne(k);
    AcksOfOne(EntryOf(r));
    assert [d] + [k] == [d, k];
  }

  lemma OneStep(env: Env, acked: set<u64>, img: Image, e: Entry)
    ensures ReplayWith(env, acked, img, [e]) == Step(env, acked, img, e)
  {
    hide Step;
    assert [e][..0] == [];
  }

  lemma TwoSteps(env: Env, acked: set<u64>, img: Image, e: Entry, f: Entry)
    ensures ReplayWith(env, acked, img, [e, f]) == Step(env, acked, Step(env, acked, img, e), f)
  {
    hide Step;
    OneStep(env, acked, img, e);
    assert [e, f][..1] == [e];
  }

  // The compaction task on the log itself.

  /** Rewrites the log without its acknowledged entries, as one step. */
  method Compact(wal: Wal.Wal, threshold: nat) returns (done: Option<(nat, nat, nat)>)
    requires wal.Valid()
    modifies wal.Repr()
    ensures wal.Valid()
    ensures var crc := wal.manager.crc;
      var before, after := ReadAll(crc, old(wal.manager.View())), ReadAll(crc, wal.manager.View());
      if |before| < threshold || AckedIds(before) == {} then
        done == None && wal.manager.View() == old(wal.manager.View())
      else
        && wal.manager.View()
           == AppendAll(crc, wal.manager.maxSegmentSize, EMPTY_DISK, Compacted(before))
        && after == Compacted(before)
        && done == Some((|before|, |after|, |before| - |after|))
  {
    hide ReadAll, AppendAll, Kept, AckedIds, AllSized;
    var entries := wal.ReadAllLogged();
    if |entries| < threshold {
      return None;
    }
    var acked := CollectAcked(entries);
    if acked == {} {
      return None;
    }
    var kept, removed := ReplayEntries(entries, acked, wal);
    ReadAllSized(wal.manager.crc, old(wal.manager.View()));
    KeptSized(entries, acked);
    SegmentationIsTransparent(wal.manager.crc, wal.manager.maxSegmentSize, Kept(entries, acked));
    done := Some((|entries|, kept, removed));
  }

  lemma {:induction false} AppendAllJoin(
    crc: Checksum, limit: nat, d: Disk, a: seq<Entry>, b: seq<Entry>)
    requires d.active in d.files
    ensures AppendAll(crc, limit, AppendAll(crc, limit, d, a), b) == AppendAll(crc, limit, d, a + b)
    decreases |a|
  {
    if a == [] {
      assert a + b == b;
    } else {
      assert (a + b)[1..] == a[1..] + b;
      hide AppendTo;
      AppendAllJoin(crc, limit, AppendTo(crc, limit, d, a[0]).0, a[1..], b);
    }
  }

  /** What is logged after a compaction is read back behind what it kept. */
  lemma AppendsAfterCompaction(crc: Checksum, limit: nat, log: seq<Entry>, later: seq<Entry>)
    requires AllSized(log) && AllSized(later)
    ensures var compacted := AppendAll(crc, limit, EMPTY_DISK, Compacted(log));
      ReadAll(crc, AppendAll(crc, limit, compacted, later)) == Compacted(log) + later
  {
    KeptSized(log, AckedIds(log));
    AppendAllJoin(crc, limit, EMPTY_DISK, Compacted(log), later);
    hide AppendAll, ReadAll, Compacted;
    SegmentationIsTransparent(crc, limit, Compacted(log) + later);
  }

  /**
   * End to end on disks: a restart after compaction and any later appends recovers what a
   * restart without the compaction would, exactly when nothing acknowledged is brought back.
   */
  lemma CompactedDiskRecoversIff(
    env: Env, crc: Checksum, limit: nat, img: Image, log: seq<Entry>, later: seq<Entry>)
    requires AllSized(log) && AllSized(later)
    ensures var compacted := AppendAll(crc, limit, EMPTY_DISK, Compacted(log));
      Replay(env, img, ReadAll(crc, AppendAll(crc, limit, compacted, later)))
      == Replay(env, img, ReadAll(crc, AppendAll(crc, limit, EMPTY_DISK, log + later)))
      <==> !RevivesAcked(env, img, log, later)
  {
    AppendsAfterCompaction(crc, limit, log, later);
    SegmentationIsTransparent(crc, limit, log + later);
    CompactionInvisibleIff(env, img, log, later);
    hide *;
  }

  /** Truncates the log and appends the entries that are not acknowledged. */
  method ReplayEntries(entries: seq<Entry>, acked: set<u64>, wal: Wal.Wal)
    returns (kept: nat, removed: nat)
    requires wal.Valid()
    modifies wal.Repr()
    ensures wal.Valid() && wal.manager.View() == AppendAll(
      wal.manager.crc, wal.manager.maxSegmentSize, EMPTY_DISK, Kept(entries, acked))
    ensures kept == |Kept(entries, acked)| && removed == |entries| - kept
  {
    wal.Truncate();
    kept, removed := 0, 0;
    var crc, limit := wal.manager.crc, wal.manager.maxSegmentSize;
    assert AppendAll(crc, limit, EMPTY_DISK, []) == EMPTY_DISK && Kept(entries[..0], acked) == [];
    hide AppendAll, AppendTo, Kept, IsAckedEntry, EMPTY_DISK;
    for i := 0 to |entries|
      invariant wal.Valid() && fresh(wal.Repr() - old(wal.Repr()))
      invariant wal.manager.View() == AppendAll(crc, limit, EMPTY_DISK, Kept(entries[..i], acked))
      invariant kept == |Kept(entries[..i], acked)| && removed == i - kept
    {
      RewriteStep(crc, limit, entries, i, acked);
      var keep := RewriteOne(wal, entries[i], acked);
      if keep {
        kept := kept + 1;
      } else {
        removed := removed + 1;
      }
    }
    assert entries[..|entries|] == entries;
  }

  lemma RewriteStep(crc: Checksum, limit: nat, es: seq<Entry>, i: nat, acked: set<u64>)
    requires i < |es|
    ensures var before, after := Kept(es[..i], acked), Kept(es[..i + 1], acked);
      if IsAckedEntry(es[i], acked) then after == before
      else
        && |after| == |before| + 1
        && AppendAll(crc, limit, EMPTY_DISK, after)
           == AppendTo(crc, limit, AppendAll(crc, limit, EMPTY_DISK, before), es[i]).0
  {
    assert es[..i + 1] == es[..i] + [es[i]];
    KeptSnoc(es[..i], es[i], acked);
    AppendAllSnoc(crc, limit, EMPTY_DISK, Kept(es[..i], acked), es[i]);
  }

  method RewriteOne(wal: Wal.Wal, entry: Entry, acked: set<u64>) returns (keep: bool)
    requires wal.Valid()
    modifies wal.Repr()
    ensures wal.Valid() && fresh(wal.Repr() - old(wal.Repr()))
    ensures keep <==> !IsAckedEntry(entry, acked)
    ensures wal.manager.View() ==
      if keep
      then AppendTo(wal.manager.crc, wal.manager.maxSegmentSize, old(wal.manager.View()), entry).0
      else old(wal.manager.View())
  {
    keep := !IsAckedEntry(entry, acked);
    if keep {
      var _ := wal.Append(entry.kind, entry.data);
    }
  }
}
