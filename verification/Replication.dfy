// Quorum replication of a publish: a state machine over the origin, the followers and the
// frames in flight. A confirmed publish was pushed by a majority.
module Replication {
  import opened Bytes
  import opened Cluster
  import opened Tallies
  import opened Messages
  import opened PriorityQueues
  import Wal
  import WalRecords
  import Segments
  import Recovery

  type Queues = map<Octets, seq<QueueMessage>>

  /** The message a follower pushes: no headers, exchange or routing key travel with it. */
  function Replicated(msgId: u64, body: Octets): QueueMessage {
    Full(NewRouted(msgId, [], body, [], []))
  }

  /** A follower refuses older terms, adopts newer ones, and pushes into a queue it has. */
  function ReceivePublish(
    n: Node, queues: Queues, term: nat, leader: u64, queue: Octets, msgId: u64, body: Octets)
    : (Node, Queues, bool)
  {
    if term < n.currentTerm then (n, queues, false)
    else
      var m := if term > n.currentTerm then n.(currentTerm := term, leaderId := leader) else n;
      if queue in queues
      then (m, queues[queue := AfterPushBack(queues[queue], Replicated(msgId, body))], true)
      else (m, queues, false)
  }

  /** Logs a replicated message and pushes it. */
  method LogAndPush(wal: Wal.Wal, q: PriorityQueue, queue: Octets, msgId: u64, body: Octets)
    requires wal.Valid() && q.Valid()
    modifies wal.Repr(), q
    ensures wal.Valid() && fresh(wal.Repr() - old(wal.Repr())) && q.Valid()
    ensures q.Contents() == AfterPushBack(old(q.Contents()), Replicated(msgId, body))
    ensures wal.manager.View() == Segments.AppendTo(
      wal.manager.crc, wal.manager.maxSegmentSize, old(wal.manager.View()),
      Recovery.EntryOf(WalRecords.EnqueueRecord(queue, msgId, [], [], [], body))).0
  {
    hide WellFormed, Flat, AfterPushBack, Segments.AppendTo, Recovery.EntryOf;
    q.PushBack(Replicated(msgId, body));
    var loc := wal.Log(WalRecords.EnqueueRecord(queue, msgId, [], [], [], body));
  }

  /** The handler over the follower's coordinator, log and queues. */
  method HandleReplicatePublish(
    cluster: ClusterCoordinator, wal: Wal.Wal, queues: map<Octets, PriorityQueue>,
    term: nat, leader: u64, queue: Octets, msgId: u64, body: Octets) returns (success: bool)
    requires wal.Valid() && forall name <- queues :: queues[name].Valid()
    modifies cluster, wal.Repr(), if queue in queues then {queues[queue]} else {}
    ensures wal.Valid() && forall name <- queues :: queues[name].Valid()
    ensures success <==> term >= old(cluster.currentTerm) && queue in queues
    ensures cluster.View() ==
      ReceivePublish(old(cluster.View()), map[], term, leader, queue, msgId, body).0
    ensures success ==>
      && queues[queue].Contents()
         == AfterPushBack(old(queues[queue].Contents()), Replicated(msgId, body))
      && wal.manager.View() == Segments.AppendTo(
           wal.manager.crc, wal.manager.maxSegmentSize, old(wal.manager.View()),
           Recovery.EntryOf(WalRecords.EnqueueRecord(queue, msgId, [], [], [], body))).0
    ensures !success ==> wal.manager.View() == old(wal.manager.View())
    ensures !success && queue in queues ==> unchanged(queues[queue])
  {
    hide WellFormed, Flat, AfterPushBack, Segments.AppendTo, Recovery.EntryOf;
    success := false;
    if term >= cluster.currentTerm {
      if term > cluster.currentTerm {
        cluster.currentTerm := term;
        cluster.leaderId := leader;
      }
      if queue in queues {
        LogAndPush(wal, queues[queue], queue, msgId, body);
        success := true;
      }
    }
  }

  // The state machine.

  datatype Frame =
    | ReplicatePublish(
        term: nat, leader: u64, queue: Octets, msgId: u64, body: Octets, dest: u64)
    | ReplicateResponse(term: nat, msgId: u64, success: bool, from: u64, dest: u64)

  /** What one replication round sends. */
  datatype Round = Round(term: nat, queue: Octets, body: Octets)

  /**
   * The nodes (membership is fixed), their queues and the frames in flight, each delivered at
   * most once. The rest is history: every round ever opened, by origin and message id; the
   * pushes of replicated messages; the followers each origin has counted; the confirmations.
   */
  datatype World = World(
    nodes: map<u64, Node>, queues: map<u64, Queues>, frames: multiset<Frame>,
    rounds: map<(u64, u64), Round>, pushed: set<(u64, Octets, QueueMessage)>,
    counted: set<(u64, u64, u64)>, confirmed: multiset<(u64, u64)>)

  datatype Step =
    | Publish(origin: u64, msgId: u64, queue: Octets, body: Octets)
    | Receive(frame: Frame)
    | Count(frame: Frame)
    | Finish(origin: u64, msgId: u64)
    | Govern(node: u64, state: Node)
    | Use(node: u64, after: Queues)
    | Lose(frame: Frame)

  predicate Init(w: World) {
    && w.nodes != map[] && w.queues.Keys == w.nodes.Keys
    && (forall n <- w.nodes :: w.nodes[n] == NewNode(n))
    && w.frames == multiset{} && w.rounds == map[] && w.pushed == {}
    && w.counted == {} && w.confirmed == multiset{}
  }

  /**
   * A message id is fresh at its origin. `Govern` is any other handler's step: it may change
   * a node's term, leader, vote and elections as it likes, but not its rounds. `Use` is
   * anything else the broker does with its queues.
   */
  predicate Enabled(w: World, step: Step) {
    match step
    case Publish(n, id, _, _) => n in w.nodes && |w.nodes| > 1 && (n, id) !in w.rounds
    case Receive(f) => f in w.frames && f.ReplicatePublish? && f.dest in w.nodes && f.dest in w.queues
    case Count(f) => f in w.frames && f.ReplicateResponse? && f.dest in w.nodes
    case Finish(n, _) => n in w.nodes
    case Govern(n, state) =>
      && n in w.nodes
      && state.pendingReplications == w.nodes[n].pendingReplications
      && state.replicationVotes == w.nodes[n].replicationVotes
    case Use(n, _) => n in w.nodes
    case Lose(f) => f in w.frames
  }

  function Broadcast(w: World, n: u64, id: u64, r: Round): set<Frame> {
    set f | f in w.nodes && f != n :: ReplicatePublish(r.term, n, r.queue, id, r.body, f)
  }

  /** The origin opens a round and sends a request to every other node. */
  function Opened(w: World, n: u64, id: u64, queue: Octets, body: Octets): World
    requires n in w.nodes
  {
    var r := Round(w.nodes[n].currentTerm, queue, body);
    w.(nodes := w.nodes[n := BeginRound(w.nodes[n], id)],
       frames := w.frames + multiset(Broadcast(w, n, id, r)),
       rounds := w.rounds[(n, id) := r])
  }

  /** A follower handles a request and answers it. */
  function Received(w: World, f: Frame): World
    requires f.ReplicatePublish? && f.dest in w.nodes && f.dest in w.queues
  {
    var (node, queues, success) := ReceivePublish(
      w.nodes[f.dest], w.queues[f.dest], f.term, f.leader, f.queue, f.msgId, f.body);
    var reply := ReplicateResponse(f.term, f.msgId, success, f.dest, f.leader);
    w.(nodes := w.nodes[f.dest := node], queues := w.queues[f.dest := queues],
       frames := w.frames - multiset{f} + multiset{reply},
       pushed := if success then w.pushed + {(f.dest, f.queue, Replicated(f.msgId, f.body))}
                 else w.pushed)
  }

  /** The origin handles an answer, and may confirm. */
  function Answered(w: World, f: Frame): World
    requires f.ReplicateResponse? && f.dest in w.nodes
  {
    var node := w.nodes[f.dest];
    var (counting, resolved) :=
      Cluster.ReplicateResponse(node, f.term, f.msgId, f.success, Quorum(|w.nodes|));
    var counts := f.success && f.term == node.currentTerm && f.msgId in node.replicationVotes;
    w.(nodes := w.nodes[f.dest := counting], frames := w.frames - multiset{f},
       counted := if counts then w.counted + {(f.dest, f.msgId, f.from)} else w.counted,
       confirmed := if resolved then w.confirmed + multiset{(f.dest, f.msgId)} else w.confirmed)
  }

  function Exec(w: World, step: Step): World
    requires Enabled(w, step)
  {
    match step
    case Publish(n, id, queue, body) => Opened(w, n, id, queue, body)
    case Receive(f) => Received(w, f)
    case Count(f) => Answered(w, f)
    case Finish(n, id) => w.(nodes := w.nodes[n := EndRound(w.nodes[n], id)])
    case Govern(n, state) => w.(nodes := w.nodes[n := state])
    case Use(n, state) => w.(queues := w.queues[n := state])
    case Lose(f) => w.(frames := w.frames - multiset{f})
  }

  ghost predicate IsRun(run: seq<World>, steps: seq<Step>) {
    && |run| == |steps| + 1 && Init(run[0])
    && forall i :: 0 <= i < |steps| ==>
         Enabled(run[i], steps[i]) && run[i + 1] == Exec(run[i], steps[i])
  }

  // The invariant.

  predicate HasPushed(w: World, o: u64, id: u64, f: u64) {
    && (o, id) in w.rounds && f in w.nodes && f != o
    && (f, w.rounds[(o, id)].queue, Replicated(id, w.rounds[(o, id)].body)) in w.pushed
  }

  /** A frame in flight belongs to a round; a granting response follows a push. */
  ghost predicate FrameOk(w: World, f: Frame) {
    match f
    case ReplicatePublish(t, o, q, id, b, d) =>
      (o, id) in w.rounds && w.rounds[(o, id)] == Round(t, q, b) && d in w.nodes && d != o
    case ReplicateResponse(t, id, success, from, o) =>
      success ==> HasPushed(w, o, id, from) && w.rounds[(o, id)].term == t
  }

  /** The request to a follower, its response and its counted vote are one token. */
  ghost predicate TokenOk(w: World, o: u64, id: u64, f: u64) {
    (o, id) in w.rounds ==>
      var r := w.rounds[(o, id)];
      w.frames[ReplicatePublish(r.term, o, r.queue, id, r.body, f)]
      + w.frames[ReplicateResponse(r.term, id, true, f, o)]
      + One((o, id, f) in w.counted) <= 1
  }

  ghost predicate TallyOk(w: World, o: u64, id: u64) {
    o in w.nodes && id in w.nodes[o].replicationVotes ==>
      (o, id) in w.rounds && w.nodes[o].replicationVotes[id] <= 1 + |Voters(w.counted, o, id)|
  }

  ghost predicate PendingOk(w: World, o: u64, id: u64) {
    o in w.nodes && id in w.nodes[o].pendingReplications ==>
      (o, id) in w.rounds && w.confirmed[(o, id)] == 0
  }

  ghost predicate ConfirmedOk(w: World, o: u64, id: u64) {
    && w.confirmed[(o, id)] <= 1
    && ((o, id) in w.confirmed ==>
          o in w.nodes && (o, id) in w.rounds && 1 + |Voters(w.counted, o, id)| >= Quorum(|w.nodes|))
  }

  ghost predicate Inv(w: World) {
    && w.queues.Keys == w.nodes.Keys
    && (forall f <- w.frames :: FrameOk(w, f))
    && (forall o: u64, id: u64, f: u64 :: TokenOk(w, o, id, f))
    && (forall o: u64, id: u64, f: u64 :: (o, id, f) in w.counted ==> HasPushed(w, o, id, f))
    && (forall o: u64, id: u64 :: TallyOk(w, o, id))
    && (forall o: u64, id: u64 :: PendingOk(w, o, id))
    && (forall o: u64, id: u64 :: ConfirmedOk(w, o, id))
  }

  lemma InitHasInv(w: World)
    requires Init(w)
    ensures Inv(w)
  {
  }

  lemma SameSize<K, V>(m: map<K, V>, n: map<K, V>)
    requires m.Keys == n.Keys
    ensures |m| == |n|
  {
    assert |m| == |m.Keys| && |n| == |n.Keys|;
  }

  lemma ReceiveKeepsNodes(w: World, f: Frame)
    requires Enabled(w, Receive(f))
    ensures var x := Received(w, f); x.nodes.Keys == w.nodes.Keys && x.queues.Keys == w.queues.Keys
  {
    hide ReceivePublish;
  }

  lemma CountKeepsNodes(w: World, f: Frame)
    requires Enabled(w, Count(f))
    ensures var x := Answered(w, f); x.nodes.Keys == w.nodes.Keys && x.queues == w.queues
  {
    hide Cluster.ReplicateResponse, Quorum;
  }

  lemma StepKeepsNodes(w: World, step: Step)
    requires Enabled(w, step)
    ensures var x := Exec(w, step); x.nodes.Keys == w.nodes.Keys && |x.nodes| == |w.nodes|
    ensures w.queues.Keys == w.nodes.Keys ==> Exec(w, step).queues.Keys == w.nodes.Keys
  {
    var x := Exec(w, step);
    assert step.Publish? ==> x.nodes.Keys == w.nodes.Keys && x.queues == w.queues;
    if step.Receive? { ReceiveKeepsNodes(w, step.frame); }
    if step.Count? { CountKeepsNodes(w, step.frame); }
    hide Opened, Received, Answered, EndRound;
    assert x.nodes.Keys == w.nodes.Keys;
    SameSize(x.nodes, w.nodes);
  }

  /** Rounds stay as they were opened, and pushes stay in the history. */
  lemma StepKeepsHistory(w: World, step: Step, o: u64, id: u64, f: u64)
    requires Enabled(w, step)
    ensures var x := Exec(w, step);
      (o, id) in w.rounds ==> (o, id) in x.rounds && x.rounds[(o, id)] == w.rounds[(o, id)]
    ensures HasPushed(w, o, id, f) ==> HasPushed(Exec(w, step), o, id, f)
  {
    StepKeepsNodes(w, step);
    hide BeginRound, EndRound, ReceivePublish, Broadcast, Cluster.ReplicateResponse, Quorum, Replicated;
  }

  lemma NewFrameOk(w: World, step: Step, g: Frame)
    requires Inv(w) && Enabled(w, step) && g in Exec(w, step).frames && g !in w.frames
    ensures FrameOk(Exec(w, step), g)
  {
    if step.Publish? {
      hide Inv, BeginRound, Received, Answered, HasPushed;
    } else if step.Receive? {
      assert FrameOk(w, step.frame);
      hide Inv, Opened, Answered, AfterPushBack;
    } else {
      hide *;
    }
  }

  lemma StepKeepsFrame(w: World, step: Step, g: Frame)
    requires Inv(w) && Enabled(w, step) && g in Exec(w, step).frames
    ensures FrameOk(Exec(w, step), g)
  {
    var o, id := if g.ReplicatePublish? then g.leader else g.dest, g.msgId;
    var f := if g.ReplicatePublish? then g.dest else g.from;
    StepKeepsNodes(w, step);
    StepKeepsHistory(w, step, o, id, f);
    hide Exec, HasPushed;
    if g in w.frames {
      assert FrameOk(w, g);
      hide Inv;
    } else {
      NewFrameOk(w, step, g);
      hide Inv, FrameOk;
    }
  }

  lemma PublishKeepsToken(w: World, n: u64, id: u64, queue: Octets, body: Octets, o: u64, i: u64, f: u64)
    requires Inv(w) && Enabled(w, Publish(n, id, queue, body))
    ensures TokenOk(Opened(w, n, id, queue, body), o, i, f)
  {
    var r := Round(w.nodes[n].currentTerm, queue, body);
    assert TokenOk(w, o, i, f);
    if (o, i) == (n, id) {
      var request := ReplicatePublish(r.term, n, queue, id, body, f);
      var response := ReplicateResponse(r.term, id, true, f, n);
      assert request in w.frames ==> FrameOk(w, request);
      assert response in w.frames ==> FrameOk(w, response);
      assert (n, id, f) in w.counted ==> HasPushed(w, n, id, f);
    }
    hide Inv, BeginRound;
  }

  lemma ReceiveKeepsToken(w: World, g: Frame, o: u64, id: u64, f: u64)
    requires Enabled(w, Receive(g)) && FrameOk(w, g) && TokenOk(w, o, id, f)
    ensures TokenOk(Received(w, g), o, id, f)
  {
    hide ReceivePublish, Replicated;
  }

  lemma CountKeepsToken(w: World, g: Frame, o: u64, id: u64, f: u64)
    requires Enabled(w, Count(g)) && FrameOk(w, g) && TokenOk(w, o, id, f)
    ensures TokenOk(Answered(w, g), o, id, f)
  {
    hide Cluster.ReplicateResponse, Quorum;
  }

  lemma StepKeepsToken(w: World, step: Step, o: u64, id: u64, f: u64)
    requires Inv(w) && Enabled(w, step)
    ensures TokenOk(Exec(w, step), o, id, f)
  {
    hide Opened, Received, Answered, EndRound;
    assert TokenOk(w, o, id, f);
    if step.Publish? {
      PublishKeepsToken(w, step.origin, step.msgId, step.queue, step.body, o, id, f);
      hide TokenOk, Inv;
    } else if step.Receive? {
      assert FrameOk(w, step.frame);
      ReceiveKeepsToken(w, step.frame, o, id, f);
      hide TokenOk, Inv;
    } else if step.Count? {
      assert FrameOk(w, step.frame);
      CountKeepsToken(w, step.frame, o, id, f);
      hide TokenOk, Inv;
    } else {
      hide Inv;
    }
  }

  lemma StepKeepsCounted(w: World, step: Step, o: u64, id: u64, f: u64)
    requires Inv(w) && Enabled(w, step) && (o, id, f) in Exec(w, step).counted
    ensures HasPushed(Exec(w, step), o, id, f)
  {
    StepKeepsHistory(w, step, o, id, f);
    hide BeginRound, EndRound, ReceivePublish, Broadcast, Cluster.ReplicateResponse, Quorum;
    if (o, id, f) in w.counted {
      assert HasPushed(w, o, id, f);
      hide Exec;
    } else {
      assert FrameOk(w, step.frame);
    }
  }

  /** What is counted and confirmed for one round. */
  ghost predicate RoundOk(w: World, o: u64, id: u64) {
    TallyOk(w, o, id) && PendingOk(w, o, id) && ConfirmedOk(w, o, id)
  }

  lemma CountKeepsItsRound(w: World, f: Frame)
    requires Enabled(w, Count(f)) && TokenOk(w, f.dest, f.msgId, f.from) && FrameOk(w, f)
    requires RoundOk(w, f.dest, f.msgId) && |Answered(w, f).nodes| == |w.nodes|
    ensures RoundOk(Answered(w, f), f.dest, f.msgId)
  {
    var x := Answered(w, f);
    if x.counted != w.counted {
      VotersCount(w.counted, x.counted, f.dest, f.msgId, f.from);
    }
    hide Voters, Quorum;
  }

  lemma CountKeepsOtherRounds(w: World, f: Frame, o: u64, id: u64)
    requires Enabled(w, Count(f)) && (o, id) != (f.dest, f.msgId)
    requires RoundOk(w, o, id) && |Answered(w, f).nodes| == |w.nodes|
    ensures RoundOk(Answered(w, f), o, id)
  {
    VotersSame(w.counted, Answered(w, f).counted, o, id);
    hide Voters, Quorum;
  }

  lemma PublishKeepsRound(w: World, n: u64, i: u64, queue: Octets, body: Octets, o: u64, id: u64)
    requires Enabled(w, Publish(n, i, queue, body)) && RoundOk(w, o, id)
    requires |Opened(w, n, i, queue, body).nodes| == |w.nodes|
    ensures RoundOk(Opened(w, n, i, queue, body), o, id)
  {
    hide Voters, Quorum, Broadcast;
  }

  /** A node's rounds are those it had, or fewer. */
  ghost predicate FewerRounds(n: Node, m: Node) {
    && m.pendingReplications <= n.pendingReplications
    && forall id <- m.replicationVotes :: id in n.replicationVotes && m.replicationVotes[id] == n.replicationVotes[id]
  }

  lemma ReceiveIsQuiet(w: World, f: Frame, o: u64)
    requires Enabled(w, Receive(f)) && o in w.nodes
    ensures o in Received(w, f).nodes && FewerRounds(w.nodes[o], Received(w, f).nodes[o])
  {
    hide Replicated, AfterPushBack;
  }

  lemma QuietStep(w: World, step: Step, o: u64)
    requires Enabled(w, step) && !step.Publish? && !step.Count?
    ensures var x := Exec(w, step);
      && x.rounds == w.rounds && x.counted == w.counted && x.confirmed == w.confirmed
      && (o in w.nodes ==> o in x.nodes && FewerRounds(w.nodes[o], x.nodes[o]))
  {
    hide Opened, Answered, ReceivePublish, Replicated;
    if step.Receive? {
      if o in w.nodes { ReceiveIsQuiet(w, step.frame, o); }
      hide FewerRounds;
    } else {
      hide Received;
      assert o in w.nodes ==> FewerRounds(w.nodes[o], w.nodes[o]);
    }
  }

  lemma QuietKeepsRound(w: World, x: World, o: u64, id: u64)
    requires RoundOk(w, o, id) && x.nodes.Keys == w.nodes.Keys && |x.nodes| == |w.nodes|
    requires x.rounds == w.rounds && x.counted == w.counted && x.confirmed == w.confirmed
    requires o in w.nodes ==> FewerRounds(w.nodes[o], x.nodes[o])
    ensures RoundOk(x, o, id)
  {
    hide Voters, Quorum;
  }

  lemma StepKeepsRound(w: World, step: Step, o: u64, id: u64)
    requires Inv(w) && Enabled(w, step)
    ensures RoundOk(Exec(w, step), o, id)
  {
    StepKeepsNodes(w, step);
    assert RoundOk(w, o, id) by {
      assert TallyOk(w, o, id) && PendingOk(w, o, id) && ConfirmedOk(w, o, id);
    }
    hide Opened, Answered, Received, RoundOk, EndRound, FewerRounds;
    if step.Publish? {
      hide Inv;
      PublishKeepsRound(w, step.origin, step.msgId, step.queue, step.body, o, id);
    } else if step.Count? {
      var f := step.frame;
      assert TokenOk(w, f.dest, f.msgId, f.from) && FrameOk(w, f);
      hide Inv, TokenOk, FrameOk;
      if (o, id) == (f.dest, f.msgId) {
        CountKeepsItsRound(w, f);
      } else {
        CountKeepsOtherRounds(w, f, o, id);
      }
    } else {
      hide Inv;
      QuietStep(w, step, o);
      hide Exec;
      QuietKeepsRound(w, Exec(w, step), o, id);
    }
  }

  lemma StepKeepsInv(w: World, step: Step)
    requires Inv(w) && Enabled(w, step)
    ensures Inv(Exec(w, step))
  {
    var x := Exec(w, step);
    StepKeepsNodes(w, step);
    hide Exec, FrameOk, TokenOk, HasPushed, TallyOk, PendingOk, ConfirmedOk;
    forall g | g in x.frames ensures FrameOk(x, g) {
      StepKeepsFrame(w, step, g);
    }
    forall o: u64, id: u64, f: u64 ensures TokenOk(x, o, id, f) {
      StepKeepsToken(w, step, o, id, f);
    }
    forall o: u64, id: u64, f: u64 | (o, id, f) in x.counted ensures HasPushed(x, o, id, f) {
      StepKeepsCounted(w, step, o, id, f);
    }
    forall o: u64, id: u64 ensures TallyOk(x, o, id) && PendingOk(x, o, id) && ConfirmedOk(x, o, id) {
      StepKeepsRound(w, step, o, id);
    }
  }

  lemma RunStep(run: seq<World>, steps: seq<Step>, i: nat)
    requires IsRun(run, steps) && i + 1 < |run|
    ensures i < |steps| && Enabled(run[i], steps[i]) && run[i + 1] == Exec(run[i], steps[i])
  {
    hide Init, Enabled, Exec;
  }

  lemma {:induction false} RunKeepsInv(run: seq<World>, steps: seq<Step>, i: nat)
    requires IsRun(run, steps) && i < |run|
    ensures Inv(run[i])
  {
    hide Inv, Init, Enabled, Exec;
    if i == 0 {
      InitHasInv(run[0]);
    } else {
      RunKeepsInv(run, steps, i - 1);
      RunStep(run, steps, i - 1);
      StepKeepsInv(run[i - 1], steps[i - 1]);
    }
  }

  lemma PushesAreReal(w: World, step: Step, d: u64, queue: Octets, m: QueueMessage)
    requires w.queues.Keys == w.nodes.Keys && Enabled(w, step)
    requires (d, queue, m) !in w.pushed && (d, queue, m) in Exec(w, step).pushed
    ensures d in w.queues && queue in w.queues[d]
    ensures Exec(w, step).queues == w.queues[d := w.queues[d][queue := AfterPushBack(w.queues[d][queue], m)]]
  {
    hide AfterPushBack, Quorum;
  }

  /** Every push in the history was made at some step of the run, at the back of its level. */
  lemma {:induction false} PushesWereMade(
    run: seq<World>, steps: seq<Step>, i: nat, d: u64, queue: Octets, m: QueueMessage) returns (j: nat)
    requires IsRun(run, steps) && i < |run| && (d, queue, m) in run[i].pushed
    ensures j < i && d in run[j].queues && queue in run[j].queues[d]
    ensures run[j + 1].queues
         == run[j].queues[d := run[j].queues[d][queue := AfterPushBack(run[j].queues[d][queue], m)]]
  {
    hide Exec, Enabled, AfterPushBack;
    j := i - 1;
    assert Enabled(run[j], steps[j]) && run[j + 1] == Exec(run[j], steps[j]);
    RunKeepsInv(run, steps, j);
    hide IsRun;
    if (d, queue, m) in run[j].pushed {
      j := PushesWereMade(run, steps, j, d, queue, m);
    } else {
      PushesAreReal(run[j], steps[j], d, queue, m);
    }
  }

  function Holders(w: World, o: u64, id: u64): set<u64> {
    set f | f in w.nodes && HasPushed(w, o, id, f)
  }

  /**
   * A publish is confirmed at most once, and only after a majority, the origin included, has
   * it: at least quorum - 1 distinct followers pushed that message into that queue.
   */
  lemma ConfirmedIsHeldByMajority(run: seq<World>, steps: seq<Step>, i: nat, o: u64, id: u64)
    requires IsRun(run, steps) && i < |run| && (o, id) in run[i].confirmed
    ensures run[i].confirmed[(o, id)] == 1
    ensures o in run[i].nodes && o !in Holders(run[i], o, id)
    ensures 1 + |Holders(run[i], o, id)| >= Quorum(|run[i].nodes|)
  {
    var w := run[i];
    RunKeepsInv(run, steps, i);
    assert ConfirmedOk(w, o, id);
    forall f | f in Voters(w.counted, o, id) ensures f in Holders(w, o, id) {
      VoterCounted(w.counted, o, id, f);
    }
    Subset(Voters(w.counted, o, id), Holders(w, o, id));
  }

  /** So every majority of the nodes holds a node that has the confirmed message. */
  lemma EveryMajorityHasAHolder(
    run: seq<World>, steps: seq<Step>, i: nat, o: u64, id: u64, majority: set<u64>)
    requires IsRun(run, steps) && i < |run| && (o, id) in run[i].confirmed
    requires majority <= run[i].nodes.Keys && |majority| >= Quorum(|run[i].nodes|)
    ensures majority * (Holders(run[i], o, id) + {o}) != {}
  {
    ConfirmedIsHeldByMajority(run, steps, i, o, id);
    var w := run[i];
    assert |w.nodes.Keys| == |w.nodes|;
    assert |Holders(w, o, id) + {o}| == |Holders(w, o, id)| + 1;
    MajoritiesOverlap(w.nodes.Keys, majority, Holders(w, o, id) + {o});
  }
}
