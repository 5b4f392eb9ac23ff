// The other direction of elections: votes that are granted count, and a quorum of them wins.
module ElectionProgress {
  import opened Bytes
  import opened Cluster
  import opened Tallies
  import opened Election

  /** The tally of an election is the candidate's own vote and the distinct voters counted. */
  ghost predicate Exact(w: World, c: u64, t: nat) {
    (c, t) in w.campaigned && c in w.nodes && t in w.nodes[c].electionVotes ==>
      w.nodes[c].electionVotes[t] == 1 + |Voters(w.counted, c, t)|
  }

  lemma NoVotersBefore(w: World, c: u64, t: nat)
    requires Inv(w) && (c, t) !in w.campaigned
    ensures Voters(w.counted, c, t) == {}
  {
    forall v: u64 ensures v !in Voters(w.counted, c, t) {
      VoterCounted(w.counted, c, t, v);
      assert TokenOk(w, c, t, v);
    }
  }

  lemma StartKeepsExact(w: World, n: u64, c: u64, t: nat)
    requires Inv(w) && Exact(w, c, t) && n in w.nodes
    ensures Exact(Exec(w, StartElection(n)), c, t)
  {
    var next: nat := w.nodes[n].currentTerm + 1;
    assert (n, next) in w.campaigned ==> CampaignOk(w, n, next);
    if (c, t) == (n, next) { NoVotersBefore(w, c, t); }
    hide Inv, Voters, Asked;
  }

  lemma CountKeepsExact(w: World, f: Frame, c: u64, t: nat)
    requires Inv(w) && Exact(w, c, t) && Enabled(w, CountResponse(f), false)
    ensures Exact(Exec(w, CountResponse(f)), c, t)
  {
    var x := Exec(w, CountResponse(f));
    if f.granted && (c, t) == (f.dest, f.term) {
      assert f == RequestVoteResponse(t, true, f.from, c);
      assert TokenOk(w, c, t, f.from);
      VotersCount(w.counted, x.counted, c, t, f.from);
    } else {
      VotersSame(w.counted, x.counted, c, t);
    }
    hide Inv, Voters;
  }

  lemma PreVoteKeepsExact(w: World, step: Step, c: u64, t: nat)
    requires Inv(w) && Exact(w, c, t) && Enabled(w, step, false) && (step.StartPreVote? || step.CountPreVote?)
    ensures Exact(Exec(w, step), c, t)
  {
    assert (c, t) in w.campaigned ==> CampaignOk(w, c, t);
    hide Inv, Voters, AskedFirst;
  }

  lemma OtherKeepsExact(w: World, step: Step, c: u64, t: nat)
    requires Exact(w, c, t) && Enabled(w, step, false)
    requires step.AnswerRequest? || step.Poll? || step.EndPreVote? || step.GiveUp?
    ensures Exact(Exec(w, step), c, t)
  {
    hide Voters, Quorum;
  }

  lemma StepKeepsExact(w: World, step: Step, c: u64, t: nat)
    requires Inv(w) && Exact(w, c, t) && Enabled(w, step, false)
    ensures Exact(Exec(w, step), c, t)
  {
    match step {
      case StartElection(n) => StartKeepsExact(w, n, c, t);
      case CountResponse(f) => CountKeepsExact(w, f, c, t);
      case StartPreVote(_) => PreVoteKeepsExact(w, step, c, t);
      case CountPreVote(_) => PreVoteKeepsExact(w, step, c, t);
      case AnswerPreVote(_) =>
      case Heartbeat(_, _, _) =>
      case Lose(_) =>
      case _ => OtherKeepsExact(w, step, c, t);
    }
  }

  /** In every run, a tally that is kept is exact: no granted vote that was received is lost. */
  lemma {:induction false} TalliesAreExact(run: seq<World>, steps: seq<Step>, i: nat, c: u64, t: nat)
    requires IsRun(run, steps, false) && i < |run|
    ensures Exact(run[i], c, t)
  {
    if i > 0 {
      hide *;
      TalliesAreExact(run, steps, i - 1, c, t);
      RunKeepsInv(run, steps, i - 1);
      RunStep(run, steps, i - 1, false);
      StepKeepsExact(run[i - 1], steps[i - 1], c, t);
    }
  }

  lemma PollOutcome(w: World, n: u64, t: nat)
    requires Inv(w) && Exact(w, n, t) && Enabled(w, Poll(n, t), false)
    ensures var x := Exec(w, Poll(n, t));
      var wins := && w.nodes[n].currentTerm == t && t in w.nodes[n].electionVotes
                  && 1 + |Voters(w.counted, n, t)| >= Quorum(|w.nodes|);
      && x.won == (if wins then w.won + {(n, t)} else w.won)
      && (wins ==> n in x.nodes && x.nodes[n].leaderId == n)
  {
    QuorumIsPositive(|w.nodes|);
    hide Quorum, Voters;
  }

  /**
   * A candidate that looks at its tally wins exactly when it is still in the term, the tally is
   * kept, and it and the distinct voters counted for it are a quorum; then it is its own leader.
   */
  lemma PollWinsIff(run: seq<World>, steps: seq<Step>, i: nat, n: u64, t: nat)
    requires IsRun(run, steps, false) && i + 1 < |run| && steps[i] == Poll(n, t)
    ensures n in run[i].nodes
    ensures var w := run[i];
      var wins := && w.nodes[n].currentTerm == t && t in w.nodes[n].electionVotes
                  && 1 + |Voters(w.counted, n, t)| >= Quorum(|w.nodes|);
      && run[i + 1].won == (if wins then w.won + {(n, t)} else w.won)
      && (wins ==> n in run[i + 1].nodes && run[i + 1].nodes[n].leaderId == n)
  {
    RunKeepsInv(run, steps, i);
    TalliesAreExact(run, steps, i, n, t);
    RunStep(run, steps, i, false);
    hide Exec, Inv, Exact;
    PollOutcome(run[i], n, t);
  }

  /** A candidacy goes on exactly while it is in its term without a quorum; its tally ends with it. */
  lemma PollEnds(run: seq<World>, steps: seq<Step>, i: nat, n: u64, t: nat)
    requires IsRun(run, steps, false) && i + 1 < |run| && steps[i] == Poll(n, t)
    ensures n in run[i].nodes && n in run[i + 1].nodes
    ensures var w := run[i];
      var open := && w.nodes[n].currentTerm == t
                  && (t in w.nodes[n].electionVotes ==> 1 + |Voters(w.counted, n, t)| < Quorum(|w.nodes|));
      && ((n, t) in run[i + 1].running <==> open)
      && (!open ==> t !in run[i + 1].nodes[n].electionVotes)
  {
    RunKeepsInv(run, steps, i);
    TalliesAreExact(run, steps, i, n, t);
    RunStep(run, steps, i, false);
    QuorumIsPositive(|run[i].nodes|);
    assert (n, t) in run[i].campaigned by { hide Exec, Voters; }
    hide Inv, Voters, Quorum, IsRun;
  }

  /** A node whose tally at a term is raised so many times. */
  function Tallied(n: Node, term: nat, times: nat): Node {
    if times == 0 then n else TallyVote(Tallied(n, term, times - 1), term)
  }

  /** A pre-vote counts the node itself and each granted reply, for the term it would run for. */
  lemma {:induction false} PreVoteCounts(n: Node, times: nat)
    ensures Tallied(BeginPreVote(n), n.currentTerm + 1, times)
         == n.(electionVotes := n.electionVotes[n.currentTerm + 1 := 1 + times])
  {
    if times > 0 {
      PreVoteCounts(n, times - 1);
    }
  }

  /**
   * After so many granted replies a pre-vote passes exactly when they and the node itself are more
   * than half of the cluster, and fails exactly when they are not and time is up. Its tally is
   * dropped with the answer, and nothing else about the node has changed.
   */
  lemma PreVotePassesIff(n: Node, replies: nat, clusterSize: nat, timedOut: bool)
    ensures var asked := Tallied(BeginPreVote(n), n.currentTerm + 1, replies);
      var (m, passed) := PollPreVote(asked, n.currentTerm + 1, Quorum(clusterSize), timedOut);
      && (passed == Some(true) <==> 2 * (1 + replies) > clusterSize)
      && (passed == Some(false) <==> timedOut && 2 * (1 + replies) <= clusterSize)
      && m == (if passed == None then asked else n.(electionVotes := n.electionVotes - {n.currentTerm + 1}))
  {
    PreVoteCounts(n, replies);
    hide Tallied, BeginPreVote;
    var votes, term := n.electionVotes, n.currentTerm + 1;
    assert votes[term := 1 + replies] - {term} == votes - {term};
  }

  // A run in which a quorum elects.

  /** Node n runs for term 2, the nodes in `done` have been counted, and the others are new and asked. */
  ghost predicate Underway(w: World, nodes: set<u64>, n: u64, done: set<u64>) {
    && Reachable(w, false) && w.nodes.Keys == nodes && n in w.nodes && (n, 2) in w.running
    && w.nodes[n].currentTerm == 2 && 2 in w.nodes[n].electionVotes
    && Voters(w.counted, n, 2) == done
    && forall v <- nodes - {n} - done :: w.nodes[v] == NewNode(v) && RequestVote(2, n, v) in w.frames
  }

  lemma Candidacy(nodes: set<u64>, n: u64) returns (x: World)
    requires 0 !in nodes && n in nodes
    ensures Underway(x, nodes, n, {})
  {
    hide Reachable;
    var w := NewNodes(nodes, false);
    forall v | v in nodes - {n} ensures RequestVote(2, n, v) in Asked(w, 2, n) {
    }
    x := Reach(w, StartElection(n), false);
    assert x.nodes.Keys == nodes;
  }

  lemma VoterGrants(w: World, n: u64, v: u64) returns (x: World)
    requires Reachable(w, false) && v in w.nodes && w.nodes[v] == NewNode(v) && RequestVote(2, n, v) in w.frames
    requires n != 0
    ensures Reachable(x, false) && x.nodes.Keys == w.nodes.Keys
    ensures forall m <- w.nodes :: m != v ==> x.nodes[m] == w.nodes[m]
    ensures x.frames == w.frames - multiset{RequestVote(2, n, v)} + multiset{RequestVoteResponse(2, true, v, n)}
    ensures x.running == w.running && x.counted == w.counted
  {
    hide Reachable;
    x := Reach(w, AnswerRequest(RequestVote(2, n, v)), false);
  }

  lemma VoteArrives(w: World, n: u64, v: u64) returns (x: World)
    requires Reachable(w, false) && n in w.nodes && RequestVoteResponse(2, true, v, n) in w.frames
    requires w.nodes[n].currentTerm == 2 && 2 in w.nodes[n].electionVotes
    ensures Reachable(x, false) && x.nodes.Keys == w.nodes.Keys
    ensures forall m <- w.nodes :: m != n ==> x.nodes[m] == w.nodes[m]
    ensures x.nodes[n].currentTerm == 2 && 2 in x.nodes[n].electionVotes
    ensures x.frames == w.frames - multiset{RequestVoteResponse(2, true, v, n)}
    ensures x.running == w.running && x.counted == w.counted + {(n, 2, v)}
  {
    hide Reachable;
    x := Reach(w, CountResponse(RequestVoteResponse(2, true, v, n)), false);
  }

  lemma OneMoreVoter(counted: set<(u64, nat, u64)>, n: u64, v: u64)
    ensures Voters(counted + {(n, 2, v)}, n, 2) == Voters(counted, n, 2) + {v}
  {
    forall u: u64
      ensures u in Voters(counted + {(n, 2, v)}, n, 2) <==> u in Voters(counted, n, 2) + {v}
    {
      VoterCounted(counted, n, 2, u);
      VoterCounted(counted + {(n, 2, v)}, n, 2, u);
    }
  }

  lemma OneVotes(w: World, nodes: set<u64>, n: u64, done: set<u64>, v: u64) returns (x: World)
    requires Underway(w, nodes, n, done) && v in nodes - {n} - done && n != 0
    ensures Underway(x, nodes, n, done + {v})
  {
    hide Reachable, Voters, NewNode;
    var y := VoterGrants(w, n, v);
    x := VoteArrives(y, n, v);
    OneMoreVoter(w.counted, n, v);
    forall u | u in nodes - {n} - (done + {v}) ensures x.nodes[u] == NewNode(u) && RequestVote(2, n, u) in x.frames {
      assert u in nodes - {n} - done;
      assert RequestVote(2, n, u) != RequestVote(2, n, v);
    }
  }

  lemma {:induction false} AllVote(w: World, nodes: set<u64>, n: u64, done: set<u64>, voters: set<u64>)
    returns (x: World)
    requires Underway(w, nodes, n, done) && voters <= nodes - {n} - done && n != 0
    ensures Underway(x, nodes, n, done + voters)
    decreases |voters|
  {
    hide Underway;
    if voters == {} {
      x := w;
      assert done + voters == done;
    } else {
      var v :| v in voters;
      x := OneVotes(w, nodes, n, done, v);
      x := AllVote(x, nodes, n, done + {v}, voters - {v});
      assert done + {v} + (voters - {v}) == done + voters;
    }
  }

  /**
   * Any node of any cluster can be elected by any voters that make it a quorum: there is a run
   * without late replies in which exactly these are counted and it wins.
   */
  lemma QuorumElects(nodes: set<u64>, n: u64, voters: set<u64>) returns (x: World)
    requires 0 !in nodes && n in nodes && voters <= nodes - {n} && 1 + |voters| >= Quorum(|nodes|)
    ensures Reachable(x, false) && x.nodes.Keys == nodes && Voters(x.counted, n, 2) == voters
    ensures (n, 2) in x.won && x.nodes[n].leaderId == n
  {
    hide Voters, Quorum, Reachable;
    x := Candidacy(nodes, n);
    x := AllVote(x, nodes, n, {}, voters);
    assert {} + voters == voters;
    assert |x.nodes| == |x.nodes.Keys|;
    x := Elected(x, n);
  }

  lemma Elected(w: World, n: u64) returns (x: World)
    requires Reachable(w, false) && n in w.nodes && (n, 2) in w.running
    requires w.nodes[n].currentTerm == 2 && 2 in w.nodes[n].electionVotes
    requires 1 + |Voters(w.counted, n, 2)| >= Quorum(|w.nodes|)
    ensures Reachable(x, false) && x.nodes.Keys == w.nodes.Keys && x.counted == w.counted
    ensures (n, 2) in x.won && x.nodes[n].leaderId == n
  {
    var run, steps :| IsRun(run, steps, false) && run[|run| - 1] == w;
    RunKeepsInv(run, steps, |run| - 1);
    TalliesAreExact(run, steps, |run| - 1, n, 2);
    hide IsRun, Inv, Exact, Voters, Quorum, Reachable;
    x := Reach(w, Poll(n, 2), false);
    PollOutcome(w, n, 2);
  }

  // What the handlers give and take.

  /** A pre-vote is granted exactly when the vote itself would be. */
  lemma PreVoteForetellsVote(n: Node, term: nat, candidate: u64)
    ensures WouldGrant(n, term, candidate) <==> GrantVote(n, term, candidate).1
  {
  }

  /**
   * A vote is granted exactly in a later term, or in the node's own term when it has not voted or
   * voted for this candidate. It raises the term and records the vote; nothing else changes.
   */
  lemma GrantsIff(n: Node, term: nat, candidate: u64)
    ensures var (m, granted) := GrantVote(n, term, candidate);
      && (granted <==>
            || term > n.currentTerm
            || (term == n.currentTerm && (n.votedFor == 0 || n.votedFor == candidate)))
      && m == if granted then n.(currentTerm := term, votedFor := candidate) else n
  {
  }

  /** So a node that granted a vote grants it again when asked again, and no other in that term. */
  lemma VotesOnceAsked(n: Node, term: nat, candidate: u64)
    requires candidate != 0 && GrantVote(n, term, candidate).1
    ensures var m := GrantVote(n, term, candidate).0;
      && GrantVote(m, term, candidate) == (m, true)
      && forall other: u64 :: other != candidate ==> !GrantVote(m, term, other).1
  {
  }

  /** A refusal from a later term ends the candidacy, and frees the vote for that term. */
  lemma LaterRefusalStepsDown(run: seq<World>, steps: seq<Step>, i: nat, f: Frame, candidate: u64)
    requires IsRun(run, steps, false) && i + 1 < |run| && steps[i] == CountResponse(f) && !f.granted
    requires f.dest in run[i].nodes && f.term > run[i].nodes[f.dest].currentTerm
    ensures f.dest in run[i + 1].nodes
    ensures var m := run[i + 1].nodes[f.dest];
      m.currentTerm == f.term && (candidate != 0 ==> GrantVote(m, f.term, candidate).1)
  {
    RunStep(run, steps, i, false);
  }

  /** A heartbeat of the node's term or later makes it follow the sender; its vote stays. */
  lemma HeartbeatIsFollowed(run: seq<World>, steps: seq<Step>, i: nat, n: u64, term: nat, leader: u64)
    requires IsRun(run, steps, false) && i + 1 < |run| && steps[i] == Heartbeat(n, term, leader)
    ensures n in run[i].nodes && n in run[i + 1].nodes
    ensures var before, m := run[i].nodes[n], run[i + 1].nodes[n];
      && m.currentTerm == (if term > before.currentTerm then term else before.currentTerm)
      && m.leaderId == (if term < before.currentTerm then before.leaderId else leader)
      && m.votedFor == before.votedFor
  {
    RunStep(run, steps, i, false);
  }
}
