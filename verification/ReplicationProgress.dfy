// The other direction of replication: acknowledgements count, and the one that completes a
// quorum confirms.
module ReplicationProgress {
  import opened Bytes
  import opened Cluster
  import opened Tallies
  import opened Messages
  import PriorityQueues
  import opened Replication

  /**
   * For a round that is open at its origin: the tally is the origin and the distinct followers
   * counted, and the round is confirmed, and no longer pending, exactly when these are a quorum.
   */
  ghost predicate Settled(w: World, o: u64, id: u64) {
    o in w.nodes && id in w.nodes[o].replicationVotes ==>
      && w.nodes[o].replicationVotes[id] == 1 + |Voters(w.counted, o, id)|
      && ((o, id) in w.confirmed <==> 1 + |Voters(w.counted, o, id)| >= Quorum(|w.nodes|))
      && (id in w.nodes[o].pendingReplications <==> (o, id) !in w.confirmed)
  }

  lemma NotYetCounted(w: World, o: u64, id: u64)
    requires Inv(w) && (o, id) !in w.rounds
    ensures Voters(w.counted, o, id) == {} && (o, id) !in w.confirmed
  {
    forall f: u64 ensures f !in Voters(w.counted, o, id) {
      VoterCounted(w.counted, o, id, f);
      assert (o, id, f) in w.counted ==> HasPushed(w, o, id, f);
    }
    assert ConfirmedOk(w, o, id);
  }

  lemma PublishSettles(w: World, step: Step, o: u64, id: u64)
    requires Inv(w) && Settled(w, o, id) && Enabled(w, step) && step.Publish?
    ensures Settled(Exec(w, step), o, id)
  {
    StepKeepsNodes(w, step);
    if (o, id) == (step.origin, step.msgId) { NotYetCounted(w, o, id); }
    hide Inv, Voters, Broadcast;
  }

  lemma CountedOnce(w: World, f: Frame)
    requires Inv(w) && Enabled(w, Count(f))
    ensures f.success && f.term == w.nodes[f.dest].currentTerm && f.msgId in w.nodes[f.dest].replicationVotes ==>
              (f.dest, f.msgId, f.from) !in w.counted
  {
    assert FrameOk(w, f) && TokenOk(w, f.dest, f.msgId, f.from);
    hide Inv, Quorum;
  }

  lemma CountSettles(w: World, f: Frame, o: u64, id: u64)
    requires Inv(w) && Settled(w, o, id) && Enabled(w, Count(f))
    ensures Settled(Exec(w, Count(f)), o, id)
  {
    hide Inv, Voters, Quorum;
    var x := Exec(w, Count(f));
    StepKeepsNodes(w, Count(f));
    CountedOnce(w, f);
    if (o, id) == (f.dest, f.msgId) && x.counted != w.counted {
      VotersCount(w.counted, x.counted, o, id, f.from);
    } else {
      VotersSame(w.counted, x.counted, o, id);
    }
  }

  lemma ReceiveSettles(w: World, f: Frame, o: u64, id: u64)
    requires Settled(w, o, id) && Enabled(w, Receive(f))
    ensures Settled(Exec(w, Receive(f)), o, id)
  {
    hide Voters, Quorum, Replicated, PriorityQueues.AfterPushBack;
    StepKeepsNodes(w, Receive(f));
  }

  lemma QuietSettles(w: World, step: Step, o: u64, id: u64)
    requires Settled(w, o, id) && Enabled(w, step) && !step.Publish? && !step.Count? && !step.Receive?
    ensures Settled(Exec(w, step), o, id)
  {
    hide Voters, Quorum;
    StepKeepsNodes(w, step);
  }

  lemma StepSettles(w: World, step: Step, o: u64, id: u64)
    requires Inv(w) && Settled(w, o, id) && Enabled(w, step)
    ensures Settled(Exec(w, step), o, id)
  {
    hide Settled, Inv, Exec;
    match step {
      case Publish(_, _, _, _) => PublishSettles(w, step, o, id);
      case Count(f) => CountSettles(w, f, o, id);
      case Receive(f) => ReceiveSettles(w, f, o, id);
      case _ => QuietSettles(w, step, o, id);
    }
  }

  lemma InitSettles(w: World, o: u64, id: u64)
    requires Init(w)
    ensures Settled(w, o, id)
  {
  }

  lemma RunBegins(run: seq<World>, steps: seq<Step>)
    requires IsRun(run, steps)
    ensures |run| > 0 && Init(run[0])
  {
    hide Init, Enabled, Exec;
  }

  /** In every run, an open round is confirmed if and only if a quorum has been counted for it. */
  lemma {:induction false} ConfirmedIffQuorumCounted(run: seq<World>, steps: seq<Step>, i: nat, o: u64, id: u64)
    requires IsRun(run, steps) && i < |run|
    ensures Settled(run[i], o, id)
  {
    hide *;
    if i == 0 {
      RunBegins(run, steps);
      InitSettles(run[0], o, id);
    } else {
      ConfirmedIffQuorumCounted(run, steps, i - 1, o, id);
      RunKeepsInv(run, steps, i - 1);
      RunStep(run, steps, i - 1);
      StepSettles(run[i - 1], steps[i - 1], o, id);
    }
  }

  lemma CountedOnArrival(w: World, f: Frame)
    requires Inv(w) && Enabled(w, Count(f)) && f.success && f.term == w.nodes[f.dest].currentTerm
    requires f.msgId in w.nodes[f.dest].replicationVotes
    ensures f.from !in Voters(w.counted, f.dest, f.msgId)
    ensures Voters(Exec(w, Count(f)).counted, f.dest, f.msgId) == Voters(w.counted, f.dest, f.msgId) + {f.from}
    ensures f.dest in Exec(w, Count(f)).nodes && f.msgId in Exec(w, Count(f)).nodes[f.dest].replicationVotes
    ensures |Exec(w, Count(f)).nodes| == |w.nodes|
  {
    var x := Exec(w, Count(f));
    StepKeepsNodes(w, Count(f));
    assert FrameOk(w, f) && TokenOk(w, f.dest, f.msgId, f.from);
    VoterCounted(w.counted, f.dest, f.msgId, f.from);
    forall v: u64
      ensures v in Voters(x.counted, f.dest, f.msgId) <==> v in Voters(w.counted, f.dest, f.msgId) + {f.from}
    {
      VoterCounted(w.counted, f.dest, f.msgId, v);
      VoterCounted(x.counted, f.dest, f.msgId, v);
    }
    hide Inv, Voters, Quorum;
  }

  /**
   * A success that reaches the origin in its term, while the round is open, counts one more
   * distinct follower, and confirms at that very step when it completes the quorum.
   */
  lemma QuorumthSuccessConfirms(run: seq<World>, steps: seq<Step>, i: nat, f: Frame)
    requires IsRun(run, steps) && i + 1 < |run| && steps[i] == Count(f) && f.ReplicateResponse? && f.success
    requires f.dest in run[i].nodes && f.term == run[i].nodes[f.dest].currentTerm
    requires f.msgId in run[i].nodes[f.dest].replicationVotes
    ensures var before, after := Voters(run[i].counted, f.dest, f.msgId), Voters(run[i + 1].counted, f.dest, f.msgId);
      && f.from !in before && after == before + {f.from}
      && ((f.dest, f.msgId) in run[i + 1].confirmed <==> 2 + |before| >= Quorum(|run[i].nodes|))
      && (2 + |before| == Quorum(|run[i].nodes|) ==> (f.dest, f.msgId) !in run[i].confirmed)
  {
    RunKeepsInv(run, steps, i);
    RunStep(run, steps, i);
    ConfirmedIffQuorumCounted(run, steps, i, f.dest, f.msgId);
    ConfirmedIffQuorumCounted(run, steps, i + 1, f.dest, f.msgId);
    hide IsRun, Inv, Voters, Quorum, Exec;
    CountedOnArrival(run[i], f);
  }

  // What a follower does.

  /** A replicated message has the lowest priority, so it goes behind everything else. */
  lemma PushedLast(s: seq<QueueMessage>, id: u64, body: Octets)
    ensures PriorityQueues.AfterPushBack(s, Replicated(id, body))
         == s + [Full(Message(id, [], body, 0, None, false, 0, [], []))]
  {
    var n := PriorityQueues.Leading(s, 0);
    assert n == |s|;
    assert s[..n] == s && s[n..] == [];
  }

  /**
   * A follower accepts a request of its own term or a later one for a queue that it has: the
   * message goes behind the others in that queue and no other queue changes. It adopts a later
   * term and its leader even without the queue. It always answers, in the term of the request.
   */
  lemma FollowerAnswers(run: seq<World>, steps: seq<Step>, i: nat, f: Frame)
    requires IsRun(run, steps) && i + 1 < |run| && steps[i] == Receive(f)
    ensures f.ReplicatePublish? && f.dest in run[i].nodes && f.dest in run[i].queues
    ensures f.dest in run[i + 1].nodes && f.dest in run[i + 1].queues
    ensures var before, after, was, now :=
        run[i].nodes[f.dest], run[i + 1].nodes[f.dest], run[i].queues[f.dest], run[i + 1].queues[f.dest];
      var accepted, newer := f.term >= before.currentTerm && f.queue in was, f.term > before.currentTerm;
      && now == (if accepted
                 then was[f.queue := was[f.queue] + [Full(Message(f.msgId, [], f.body, 0, None, false, 0, [], []))]]
                 else was)
      && after == (if newer then before.(currentTerm := f.term, leaderId := f.leader) else before)
      && run[i + 1].frames
         == run[i].frames - multiset{f} + multiset{ReplicateResponse(f.term, f.msgId, accepted, f.dest, f.leader)}
  {
    RunStep(run, steps, i);
    var was := run[i].queues[f.dest];
    if f.queue in was { PushedLast(was[f.queue], f.msgId, f.body); }
    hide IsRun, PriorityQueues.AfterPushBack, Replicated;
  }

  /** A publish asks every other node, once each, and opens the round with the origin's own copy. */
  lemma PublishAsksAll(run: seq<World>, steps: seq<Step>, i: nat, o: u64, id: u64, queue: Octets, body: Octets, v: u64)
    requires IsRun(run, steps) && i + 1 < |run| && steps[i] == Publish(o, id, queue, body)
    ensures o in run[i].nodes && o in run[i + 1].nodes
    ensures id in run[i + 1].nodes[o].replicationVotes && run[i + 1].nodes[o].replicationVotes[id] == 1
    ensures id in run[i + 1].nodes[o].pendingReplications
    ensures var f := ReplicatePublish(run[i].nodes[o].currentTerm, o, queue, id, body, v);
      run[i + 1].frames[f] == run[i].frames[f] + if v in run[i].nodes && v != o then 1 else 0
  {
    RunStep(run, steps, i);
    hide IsRun;
  }

  /** Once a round is over, an answer for it has no effect, and neither has one of another term. */
  lemma LateAnswersAreIgnored(run: seq<World>, steps: seq<Step>, i: nat, f: Frame)
    requires IsRun(run, steps) && i + 1 < |run| && steps[i] == Count(f)
    requires f.dest in run[i].nodes && f.ReplicateResponse?
    requires var n := run[i].nodes[f.dest];
      f.msgId !in n.replicationVotes || f.term != n.currentTerm || !f.success
    ensures run[i + 1] == run[i].(frames := run[i].frames - multiset{f})
  {
    RunStep(run, steps, i);
    hide IsRun;
    assert run[i].nodes[f.dest := run[i].nodes[f.dest]] == run[i].nodes;
  }

  /** Finishing a round forgets it and nothing else about the node. */
  lemma FinishForgets(run: seq<World>, steps: seq<Step>, i: nat, o: u64, id: u64)
    requires IsRun(run, steps) && i + 1 < |run| && steps[i] == Finish(o, id)
    ensures o in run[i].nodes && o in run[i + 1].nodes
    ensures var n, m := run[i].nodes[o], run[i + 1].nodes[o];
      && id !in m.pendingReplications && id !in m.replicationVotes
      && m == n.(pendingReplications := m.pendingReplications, replicationVotes := m.replicationVotes)
      && forall other: u64 :: other != id ==>
           && (other in m.pendingReplications <==> other in n.pendingReplications)
           && (other in m.replicationVotes <==> other in n.replicationVotes)
           && (other in m.replicationVotes ==> m.replicationVotes[other] == n.replicationVotes[other])
  {
    RunStep(run, steps, i);
    hide IsRun;
  }

  // A run in which a quorum confirms.

  ghost predicate Reachable(w: World) {
    exists run, steps :: IsRun(run, steps) && run[|run| - 1] == w
  }

  lemma Reach(w: World, step: Step) returns (x: World)
    requires Reachable(w) && Enabled(w, step)
    ensures x == Exec(w, step) && Reachable(x)
  {
    hide Exec, Enabled, Init;
    var run, steps :| IsRun(run, steps) && run[|run| - 1] == w;
    x := Exec(w, step);
    assert IsRun(run + [x], steps + [step]);
  }

  /** A queue, a message id and a body to replicate from an origin. */
  datatype Task = Task(origin: u64, queue: Octets, id: u64, body: Octets)

  function Request(t: Task, v: u64): Frame {
    ReplicatePublish(1, t.origin, t.queue, t.id, t.body, v)
  }

  /** Every node is at term 1 and the nodes in `ready` have the queue; nothing else happened. */
  ghost predicate Prepared(w: World, nodes: set<u64>, t: Task, ready: set<u64>) {
    && Reachable(w) && w.nodes.Keys == nodes && w.queues.Keys == nodes && w.rounds == map[] && w.counted == {}
    && (forall n <- nodes :: w.nodes[n] == NewNode(n))
    && forall n <- ready :: n in nodes && t.queue in w.queues[n]
  }

  lemma StartUp(nodes: set<u64>, t: Task) returns (w: World)
    requires nodes != {}
    ensures Prepared(w, nodes, t, {})
  {
    var noQueues: Queues := map[];
    w := World(map n | n in nodes :: NewNode(n), map n | n in nodes :: noQueues, multiset{}, map[], {}, {}, multiset{});
    var n :| n in nodes;
    assert n in w.nodes && w.nodes.Keys == nodes && w.queues.Keys == nodes;
    hide Enabled, Exec, NewNode;
    assert IsRun([w], []) && [w][|[w]| - 1] == w;
  }

  lemma GiveQueue(w: World, nodes: set<u64>, t: Task, ready: set<u64>, n: u64) returns (x: World)
    requires Prepared(w, nodes, t, ready) && n in nodes
    ensures Prepared(x, nodes, t, ready + {n})
  {
    hide Reachable, NewNode;
    x := Reach(w, Use(n, map[t.queue := []]));
    assert x.queues == w.queues[n := map[t.queue := []]];
    assert x.queues.Keys == nodes;
  }

  lemma {:induction false} GiveQueues(w: World, nodes: set<u64>, t: Task, ready: set<u64>, more: set<u64>)
    returns (x: World)
    requires Prepared(w, nodes, t, ready) && more <= nodes
    ensures Prepared(x, nodes, t, ready + more)
    decreases |more|
  {
    hide Prepared;
    if more == {} {
      x := w;
      assert ready + more == ready;
    } else {
      var n :| n in more;
      x := GiveQueue(w, nodes, t, ready, n);
      x := GiveQueues(x, nodes, t, ready + {n}, more - {n});
      assert ready + {n} + (more - {n}) == ready + more;
    }
  }

  /** The round is open, the followers in `done` are counted, and those in `left` can still answer. */
  ghost predicate Underway(w: World, nodes: set<u64>, t: Task, done: set<u64>, left: set<u64>) {
    && Reachable(w) && w.nodes.Keys == nodes && w.queues.Keys == nodes && t.origin in nodes
    && w.nodes[t.origin].currentTerm == 1 && t.id in w.nodes[t.origin].replicationVotes
    && Voters(w.counted, t.origin, t.id) == done
    && forall v <- left ::
         && v in nodes && v != t.origin && w.nodes[v].currentTerm == 1 && t.queue in w.queues[v]
         && Request(t, v) in w.frames
  }

  lemma Open(w: World, nodes: set<u64>, t: Task, left: set<u64>) returns (x: World)
    requires Prepared(w, nodes, t, left) && t.origin in nodes && |nodes| > 1 && t.origin !in left
    ensures Underway(x, nodes, t, {}, left)
  {
    hide Reachable;
    assert |w.nodes| == |w.nodes.Keys|;
    forall v | v in left ensures Request(t, v) in Broadcast(w, t.origin, t.id, Round(1, t.queue, t.body)) {
    }
    hide Broadcast;
    x := Reach(w, Publish(t.origin, t.id, t.queue, t.body));
    assert x.nodes.Keys == nodes;
  }

  lemma Push(w: World, nodes: set<u64>, t: Task, done: set<u64>, left: set<u64>, v: u64) returns (x: World)
    requires Underway(w, nodes, t, done, left) && v in left
    ensures Underway(x, nodes, t, done, left - {v}) && ReplicateResponse(1, t.id, true, v, t.origin) in x.frames
  {
    hide Reachable, Voters, PriorityQueues.AfterPushBack, Replicated;
    x := Reach(w, Receive(Request(t, v)));
    assert x.nodes.Keys == nodes && x.queues.Keys == nodes;
    forall u | u in left - {v} ensures Request(t, u) in x.frames {
      assert Request(t, u) != Request(t, v);
    }
  }

  lemma ReachableInv(w: World)
    requires Reachable(w)
    ensures Inv(w)
  {
    hide Inv, Enabled, Exec;
    var run, steps :| IsRun(run, steps) && run[|run| - 1] == w;
    RunKeepsInv(run, steps, |run| - 1);
  }

  /** Counting a success changes no term and no queue, and takes no other frame. */
  lemma CountLeaves(w: World, f: Frame)
    requires Enabled(w, Count(f)) && f.ReplicateResponse? && f.success
    ensures var x := Exec(w, Count(f));
      && x.nodes.Keys == w.nodes.Keys && x.queues == w.queues
      && (forall n <- w.nodes :: x.nodes[n].currentTerm == w.nodes[n].currentTerm)
      && forall g: Frame :: g != f && g in w.frames ==> g in x.frames
  {
    hide Voters, Quorum;
  }

  lemma Acknowledge(w: World, nodes: set<u64>, t: Task, done: set<u64>, left: set<u64>, v: u64) returns (x: World)
    requires Underway(w, nodes, t, done, left) && ReplicateResponse(1, t.id, true, v, t.origin) in w.frames
    ensures Underway(x, nodes, t, done + {v}, left)
  {
    hide Reachable, Inv, Voters, Quorum, Exec, Request;
    var f := ReplicateResponse(1, t.id, true, v, t.origin);
    ReachableInv(w);
    CountedOnArrival(w, f);
    CountLeaves(w, f);
    x := Reach(w, Count(f));
    forall u | u in left ensures Request(t, u) in x.frames {
      IsRequest(t, u);
    }
  }

  lemma IsRequest(t: Task, v: u64)
    ensures Request(t, v).ReplicatePublish?
  {
  }

  lemma {:induction false} AllAcknowledge(w: World, nodes: set<u64>, t: Task, done: set<u64>, left: set<u64>)
    returns (x: World)
    requires Underway(w, nodes, t, done, left)
    ensures Underway(x, nodes, t, done + left, {})
    decreases |left|
  {
    hide Underway;
    if left == {} {
      x := w;
      assert done + left == done;
    } else {
      var v :| v in left;
      x := Push(w, nodes, t, done, left, v);
      x := Acknowledge(x, nodes, t, done, left - {v}, v);
      x := AllAcknowledge(x, nodes, t, done + {v}, left - {v});
      assert done + {v} + (left - {v}) == done + left;
    }
  }

  /**
   * Any followers that make a quorum with the origin can confirm a publish: there is a run in
   * which exactly these are counted.
   */
  lemma QuorumConfirms(nodes: set<u64>, t: Task, followers: set<u64>) returns (x: World)
    requires t.origin in nodes && |nodes| > 1 && followers <= nodes - {t.origin}
    requires 1 + |followers| >= Quorum(|nodes|)
    ensures Reachable(x) && x.nodes.Keys == nodes && Voters(x.counted, t.origin, t.id) == followers
    ensures (t.origin, t.id) in x.confirmed
  {
    hide Voters, Quorum, Prepared;
    x := StartUp(nodes, t);
    x := GiveQueues(x, nodes, t, {}, followers);
    assert {} + followers == followers;
    x := Open(x, nodes, t, followers);
    x := AllAcknowledge(x, nodes, t, {}, followers);
    assert |x.nodes| == |x.nodes.Keys|;
    var run, steps :| IsRun(run, steps) && run[|run| - 1] == x;
    ConfirmedIffQuorumCounted(run, steps, |run| - 1, t.origin, t.id);
    hide IsRun;
  }
}
