// A cluster node's consensus state and its handlers: pre-votes, elections, leader
// heartbeats and the tally of replication acknowledgements.
module Cluster {
  import opened Bytes

  datatype Node = Node(
    currentTerm: nat, leaderId: u64, votedFor: u64, electionVotes: map<nat, nat>,
    pendingReplications: set<u64>, replicationVotes: map<u64, nat>)

  /** Every node starts as its own leader at term 1, without a vote. */
  function NewNode(id: u64): Node {
    Node(1, id, 0, map[], {}, map[])
  }

  /** More than half of the nodes. */
  function Quorum(clusterSize: nat): nat {
    clusterSize / 2 + 1
  }

  /** A number of nodes reaches the quorum exactly when it is more than half of them. */
  lemma QuorumIffMajority(clusterSize: nat, k: nat)
    ensures k >= Quorum(clusterSize) <==> 2 * k > clusterSize
  {
  }

  lemma MajoritiesOverlap<T>(all: set<T>, a: set<T>, b: set<T>)
    requires a <= all && b <= all && |a| >= Quorum(|all|) && |b| >= Quorum(|all|)
    ensures a * b != {}
  {
    if a * b == {} {
      assert |a + b| == |a| + |b|;
      Subset(a + b, all);
    }
  }

  lemma Subset<T>(a: set<T>, b: set<T>)
    requires a <= b
    ensures |a| <= |b|
  {
    assert b == a + (b - a);
  }

  // Elections.

  function TallyVote(n: Node, term: nat): Node {
    if term in n.electionVotes
    then n.(electionVotes := n.electionVotes[term := n.electionVotes[term] + 1]) else n
  }

  function BeginPreVote(n: Node): Node {
    n.(electionVotes := n.electionVotes[n.currentTerm + 1 := 1])
  }

  function DropTracker(n: Node, term: nat): Node {
    n.(electionVotes := n.electionVotes - {term})
  }

  /** One look at a pre-vote tally; it is dropped once there is an answer. */
  function PollPreVote(n: Node, term: nat, quorum: nat, timedOut: bool): (Node, Option<bool>) {
    var votes := if term in n.electionVotes then n.electionVotes[term] else 0;
    if votes >= quorum then (DropTracker(n, term), Some(true))
    else if timedOut then (DropTracker(n, term), Some(false))
    else (n, None)
  }

  /** A real election: a new term, a vote for oneself, a fresh tally. */
  function BeginElection(n: Node, id: u64): Node {
    var term := n.currentTerm + 1;
    n.(currentTerm := term, votedFor := id, electionVotes := n.electionVotes[term := 1])
  }

  /** One look at a running election: won, abandoned because the term moved on, or undecided. */
  datatype Poll = Won(node: Node) | Abandoned(node: Node) | Undecided

  function PollElection(n: Node, id: u64, term: nat, quorum: nat): Poll {
    var votes := if term in n.electionVotes then n.electionVotes[term] else 0;
    if n.currentTerm != term then Abandoned(DropTracker(n, term))
    else if votes >= quorum then Won(DropTracker(n, term).(leaderId := id))
    else Undecided
  }

  predicate WouldGrant(n: Node, term: nat, candidate: u64) {
    if term < n.currentTerm then false
    else if term > n.currentTerm then true
    else n.votedFor == 0 || n.votedFor == candidate
  }

  function GrantVote(n: Node, term: nat, candidate: u64): (Node, bool) {
    if term < n.currentTerm then (n, false)
    else
      var m := if term > n.currentTerm then n.(currentTerm := term, votedFor := 0) else n;
      if m.votedFor == 0 || m.votedFor == candidate then (m.(votedFor := candidate), true)
      else (m, false)
  }

  function VoteResponse(n: Node, term: nat, granted: bool): Node {
    if granted then TallyVote(n, term)
    else if term > n.currentTerm then n.(currentTerm := term, votedFor := 0) else n
  }

  /** A leader's heartbeat raises the term without clearing the vote. */
  function LeaderHeartbeat(n: Node, term: nat, leader: u64): Node {
    if term >= n.currentTerm then n.(currentTerm := term, leaderId := leader) else n
  }

  // Replication rounds.

  function BeginRound(n: Node, msgId: u64): Node {
    n.(pendingReplications := n.pendingReplications + {msgId},
       replicationVotes := n.replicationVotes[msgId := 1])
  }

  function EndRound(n: Node, msgId: u64): Node {
    n.(pendingReplications := n.pendingReplications - {msgId},
       replicationVotes := n.replicationVotes - {msgId})
  }

  /** Counts an acknowledgement; the one that reaches the quorum resolves the round. */
  function VoteReplication(n: Node, msgId: u64, quorum: nat): (Node, bool) {
    if msgId !in n.replicationVotes then (n, false)
    else
      var count := n.replicationVotes[msgId] + 1;
      var m := n.(replicationVotes := n.replicationVotes[msgId := count]);
      if count >= quorum && msgId in n.pendingReplications
      then (m.(pendingReplications := n.pendingReplications - {msgId}), true)
      else (m, false)
  }

  function ReplicateResponse(n: Node, term: nat, msgId: u64, success: bool, quorum: nat)
    : (Node, bool)
  {
    if term == n.currentTerm && success then VoteReplication(n, msgId, quorum) else (n, false)
  }

  class ClusterCoordinator {
    const nodeId: u64
    const peers: set<u64>
    var currentTerm: nat
    var leaderId: u64
    var votedFor: u64
    var electionVotes: map<nat, nat>
    var pendingReplications: set<u64>
    var replicationVotes: map<u64, nat>

    function View(): Node
      reads this
    {
      Node(currentTerm, leaderId, votedFor, electionVotes, pendingReplications, replicationVotes)
    }

    function ClusterSize(): nat {
      |peers| + 1
    }

    constructor (nodeId: u64, peers: set<u64>)
      ensures View() == NewNode(nodeId) && this.nodeId == nodeId && this.peers == peers
    {
      this.nodeId, this.peers := nodeId, peers;
      currentTerm, leaderId, votedFor, electionVotes := 1, nodeId, 0, map[];
      pendingReplications, replicationVotes := {}, map[];
    }

    method Tally(term: nat)
      modifies this
      ensures View() == TallyVote(old(View()), term)
    {
      if term in electionVotes {
        electionVotes := electionVotes[term := electionVotes[term] + 1];
      }
    }

    /** A lone node passes at once; otherwise a tally is opened and the peers are asked. */
    method StartPreVote() returns (term: Option<nat>)
      modifies this
      ensures if peers == {} then term == None && View() == old(View())
              else term == Some(old(currentTerm) + 1) && View() == BeginPreVote(old(View()))
    {
      var proposed := currentTerm + 1;
      if peers == {} {
        return None;
      }
      electionVotes := electionVotes[proposed := 1];
      term := Some(proposed);
    }

    /** `None` means keep waiting. */
    method PollPreVoteTally(term: nat, timedOut: bool) returns (passed: Option<bool>)
      modifies this
      ensures (View(), passed) == PollPreVote(old(View()), term, Quorum(ClusterSize()), timedOut)
    {
      var votes := 0;
      if term in electionVotes {
        votes := electionVotes[term];
      }
      if votes >= Quorum(ClusterSize()) {
        electionVotes := electionVotes - {term};
        return Some(true);
      }
      if timedOut {
        electionVotes := electionVotes - {term};
        return Some(false);
      }
      passed := None;
    }

    method StartElection() returns (term: nat)
      modifies this
      ensures View() == BeginElection(old(View()), nodeId) && term == currentTerm
    {
      currentTerm := currentTerm + 1;
      term := currentTerm;
      votedFor := nodeId;
      electionVotes := electionVotes[term := 1];
    }

    /** One look at a running election; `None` means keep waiting. */
    method PollElectionTally(term: nat, timedOut: bool) returns (won: Option<bool>)
      modifies this
      ensures match PollElection(old(View()), nodeId, term, Quorum(ClusterSize()))
        case Won(n) => won == Some(true) && View() == n
        case Abandoned(n) => won == Some(false) && View() == n
        case Undecided =>
          if timedOut then won == Some(false) && View() == DropTracker(old(View()), term)
          else won == None && View() == old(View())
    {
      if currentTerm != term {
        electionVotes := electionVotes - {term};
        return Some(false);
      }
      var votes := 0;
      if term in electionVotes {
        votes := electionVotes[term];
      }
      if votes >= Quorum(ClusterSize()) {
        electionVotes := electionVotes - {term};
        leaderId := nodeId;
        return Some(true);
      }
      if timedOut {
        electionVotes := electionVotes - {term};
        return Some(false);
      }
      won := None;
    }

    method HandlePreVote(term: nat, candidate: u64) returns (granted: bool)
      ensures granted <==> WouldGrant(View(), term, candidate)
    {
      if term < currentTerm {
        granted := false;
      } else if term > currentTerm {
        granted := true;
      } else {
        granted := votedFor == 0 || votedFor == candidate;
      }
    }

    method HandleRequestVote(term: nat, candidate: u64) returns (responseTerm: nat, granted: bool)
      modifies this
      ensures (View(), granted) == GrantVote(old(View()), term, candidate)
      ensures responseTerm == currentTerm
    {
      if term < currentTerm {
        granted := false;
      } else {
        if term > currentTerm {
          currentTerm := term;
          votedFor := 0;
        }
        if votedFor == 0 || votedFor == candidate {
          votedFor := candidate;
          granted := true;
        } else {
          granted := false;
        }
      }
      responseTerm := currentTerm;
    }

    method HandleVoteResponse(term: nat, granted: bool)
      modifies this
      ensures View() == VoteResponse(old(View()), term, granted)
    {
      if granted {
        Tally(term);
      } else if term > currentTerm {
        currentTerm := term;
        votedFor := 0;
      }
    }

    method HandleLeaderHeartbeat(term: nat, leader: u64)
      modifies this
      ensures View() == LeaderHeartbeat(old(View()), term, leader)
    {
      if term >= currentTerm {
        currentTerm := term;
        leaderId := leader;
      }
    }

    /** Opens a round; a lone node is confirmed at once. */
    method StartReplication(msgId: u64) returns (confirmed: bool)
      modifies this
      ensures if peers == {} then confirmed && View() == old(View())
              else !confirmed && View() == BeginRound(old(View()), msgId)
    {
      if peers == {} {
        return true;
      }
      pendingReplications := pendingReplications + {msgId};
      replicationVotes := replicationVotes[msgId := 1];
      confirmed := false;
    }

    method FinishReplication(msgId: u64)
      modifies this
      ensures View() == EndRound(old(View()), msgId)
    {
      pendingReplications := pendingReplications - {msgId};
      replicationVotes := replicationVotes - {msgId};
    }

    method HandleReplicateResponse(term: nat, msgId: u64, success: bool) returns (resolved: bool)
      modifies this
      ensures (View(), resolved)
           == ReplicateResponse(old(View()), term, msgId, success, Quorum(ClusterSize()))
    {
      resolved := false;
      if term == currentTerm && success && msgId in replicationVotes {
        var count := replicationVotes[msgId] + 1;
        replicationVotes := replicationVotes[msgId := count];
        if count >= Quorum(ClusterSize()) && msgId in pendingReplications {
          pendingReplications := pendingReplications - {msgId};
          resolved := true;
        }
      }
    }
  }
}
