// Elections as a state machine over handler steps and in-flight frames: no two nodes ever
// win the same term.
module Election {
  import opened Bytes
  import opened Cluster
  import opened Tallies

  datatype Frame =
    | PreVote(term: nat, candidate: u64, dest: u64)
    | PreVoteResponse(term: nat, granted: bool, from: u64, dest: u64)
    | RequestVote(term: nat, candidate: u64, dest: u64)
    | RequestVoteResponse(term: nat, granted: bool, from: u64, dest: u64)

  /**
   * The nodes (membership is fixed) and the frames in flight, each delivered at most once.
   * The rest is history: the terms each node really ran for, who each node granted each term
   * to, the grants each candidate has counted, and the elections won.
   */
  datatype World = World(
    nodes: map<u64, Node>, frames: multiset<Frame>, running: set<(u64, nat)>,
    campaigned: set<(u64, nat)>, granted: map<(u64, nat), u64>, counted: set<(u64, nat, u64)>,
    won: set<(u64, nat)>)

  datatype Step =
    | StartPreVote(node: u64)
    | AnswerPreVote(frame: Frame)
    | CountPreVote(frame: Frame)
    | EndPreVote(node: u64, term: nat)
    | StartElection(node: u64)
    | AnswerRequest(frame: Frame)
    | CountResponse(frame: Frame)
    | Poll(node: u64, term: nat)
    | GiveUp(node: u64, term: nat)
    | Heartbeat(node: u64, term: nat, leader: u64)
    | Lose(frame: Frame)

  predicate Init(w: World) {
    && w.nodes != map[] && 0 !in w.nodes
    && (forall n <- w.nodes :: w.nodes[n] == NewNode(n))
    && w.frames == multiset{} && w.running == {} && w.campaigned == {}
    && w.granted == map[] && w.counted == {} && w.won == {}
  }

  function Asked(w: World, term: nat, candidate: u64): set<Frame> {
    set v | v in w.nodes && v != candidate :: RequestVote(term, candidate, v)
  }

  function AskedFirst(w: World, term: nat, candidate: u64): set<Frame> {
    set v | v in w.nodes && v != candidate :: PreVote(term, candidate, v)
  }

  /**
   * When a step can happen. A real election may start at any time, whether or not a pre-vote
   * passed: that only adds runs. With `late` false, a granted pre-vote is not counted once
   * its node has run for that term.
   */
  predicate Enabled(w: World, step: Step, late: bool) {
    match step
    case StartPreVote(n) => n in w.nodes && |w.nodes| > 1
    case AnswerPreVote(f) => f in w.frames && f.PreVote? && f.dest in w.nodes
    case CountPreVote(f) =>
      && f in w.frames && f.PreVoteResponse? && f.dest in w.nodes
      && (late || (f.dest, f.term) !in w.campaigned)
    case EndPreVote(n, t) => n in w.nodes
    case StartElection(n) => n in w.nodes
    case AnswerRequest(f) => f in w.frames && f.RequestVote? && f.dest in w.nodes
    case CountResponse(f) => f in w.frames && f.RequestVoteResponse? && f.dest in w.nodes
    case Poll(n, t) => n in w.nodes && (n, t) in w.running
    case GiveUp(n, t) => n in w.nodes && (n, t) in w.running
    case Heartbeat(n, _, _) => n in w.nodes
    case Lose(f) => f in w.frames
  }

  function Put(w: World, n: u64, node: Node): World {
    w.(nodes := w.nodes[n := node])
  }

  function Take(w: World, f: Frame): World {
    w.(frames := w.frames - multiset{f})
  }

  function Exec(w: World, step: Step): World
    requires Enabled(w, step, true)
  {
    match step
    case StartPreVote(n) =>
      var term := w.nodes[n].currentTerm + 1;
      Put(w, n, BeginPreVote(w.nodes[n])).(frames := w.frames + multiset(AskedFirst(w, term, n)))
    case AnswerPreVote(f) =>
      var reply := PreVoteResponse(
        f.term, WouldGrant(w.nodes[f.dest], f.term, f.candidate), f.dest, f.candidate);
      w.(frames := w.frames - multiset{f} + multiset{reply})
    case CountPreVote(f) =>
      var n := w.nodes[f.dest];
      Put(Take(w, f), f.dest, if f.granted then TallyVote(n, f.term) else n)
    case EndPreVote(n, t) => Put(w, n, DropTracker(w.nodes[n], t))
    case StartElection(n) =>
      var node := BeginElection(w.nodes[n], n);
      var t := node.currentTerm;
      Put(w, n, node).(frames := w.frames + multiset(Asked(w, t, n)),
                       running := w.running + {(n, t)},
                       campaigned := w.campaigned + {(n, t)},
                       granted := w.granted[(n, t) := n])
    case AnswerRequest(f) =>
      var (node, granted) := GrantVote(w.nodes[f.dest], f.term, f.candidate);
      var reply := RequestVoteResponse(node.currentTerm, granted, f.dest, f.candidate);
      Put(w, f.dest, node).(frames := w.frames - multiset{f} + multiset{reply},
                            granted := if granted then w.granted[(f.dest, f.term) := f.candidate]
                                       else w.granted)
    case CountResponse(f) =>
      Put(Take(w, f), f.dest, VoteResponse(w.nodes[f.dest], f.term, f.granted)).(
        counted := if f.granted then w.counted + {(f.dest, f.term, f.from)} else w.counted)
    case Poll(n, t) =>
      (match PollElection(w.nodes[n], n, t, Quorum(|w.nodes|))
       case Won(node) => Put(w, n, node).(running := w.running - {(n, t)}, won := w.won + {(n, t)})
       case Abandoned(node) => Put(w, n, node).(running := w.running - {(n, t)})
       case Undecided => w)
    case GiveUp(n, t) => Put(w, n, DropTracker(w.nodes[n], t)).(running := w.running - {(n, t)})
    case Heartbeat(n, term, leader) => Put(w, n, LeaderHeartbeat(w.nodes[n], term, leader))
    case Lose(f) => Take(w, f)
  }

  ghost predicate IsRun(run: seq<World>, steps: seq<Step>, late: bool) {
    && |run| == |steps| + 1 && Init(run[0])
    && forall i :: 0 <= i < |steps| ==>
         Enabled(run[i], steps[i], late) && run[i + 1] == Exec(run[i], steps[i])
  }

  // The invariant.

  /** Grants are remembered: the newest in `votedFor`, the older ones by the term. */
  ghost predicate GrantOk(w: World, v: u64, t: nat) {
    && v in w.nodes && t <= w.nodes[v].currentTerm && (v, t) in w.granted
    && w.granted[(v, t)] != 0
    && (t == w.nodes[v].currentTerm ==> w.nodes[v].votedFor == w.granted[(v, t)])
  }

  ghost predicate CampaignOk(w: World, c: u64, t: nat) {
    && c in w.nodes && t <= w.nodes[c].currentTerm
    && (c, t) in w.granted && w.granted[(c, t)] == c
  }

  /** A voter's request, its granting response and its counted vote are one token. */
  ghost predicate TokenOk(w: World, c: u64, t: nat, v: u64) {
    w.frames[RequestVote(t, c, v)] + w.frames[RequestVoteResponse(t, true, v, c)]
    + One((c, t, v) in w.counted)
    <= One((c, t) in w.campaigned && v in w.nodes && v != c)
  }

  /** Whoever's vote is on its way or counted has granted it. */
  ghost predicate VoteOk(w: World, c: u64, t: nat, v: u64) {
    (c, t, v) in w.counted || RequestVoteResponse(t, true, v, c) in w.frames ==>
      (v, t) in w.granted && w.granted[(v, t)] == c
  }

  /** The tally of a real election never exceeds the votes counted, plus one's own. */
  ghost predicate TallyOk(w: World, c: u64, t: nat) {
    c in w.nodes && t in w.nodes[c].electionVotes ==>
      w.nodes[c].electionVotes[t] <= 1 + |Voters(w.counted, c, t)|
  }

  ghost predicate Inv(w: World) {
    && 0 !in w.nodes
    && (forall v: u64, t: nat :: (v, t) in w.granted ==> GrantOk(w, v, t))
    && (forall c: u64, t: nat :: (c, t) in w.campaigned ==> CampaignOk(w, c, t))
    && (forall c: u64, t: nat, v: u64 :: TokenOk(w, c, t, v))
    && (forall c: u64, t: nat, v: u64 :: VoteOk(w, c, t, v))
    && (forall c: u64, t: nat :: (c, t) in w.campaigned ==> TallyOk(w, c, t))
    && w.running <= w.campaigned && w.won <= w.campaigned
    && (forall c: u64, t: nat :: (c, t) in w.won ==>
          1 + |Voters(w.counted, c, t)| >= Quorum(|w.nodes|))
  }

  /** A node that may have moved to a later term, but in the same term keeps its vote. */
  ghost predicate NodeKept(n: Node, m: Node) {
    n.currentTerm <= m.currentTerm && (n.currentTerm == m.currentTerm ==> n.votedFor == m.votedFor)
  }

  /** No more votes counted for the terms the node has run for. */
  ghost predicate TallyKept(w: World, x: World, c: u64, t: nat) {
    c in w.nodes && c in x.nodes && t in x.nodes[c].electionVotes ==>
      t in w.nodes[c].electionVotes && x.nodes[c].electionVotes[t] <= w.nodes[c].electionVotes[t]
  }

  ghost predicate FramesKept(w: World, x: World, c: u64, t: nat, v: u64) {
    && x.frames[RequestVote(t, c, v)] <= w.frames[RequestVote(t, c, v)]
    && x.frames[RequestVoteResponse(t, true, v, c)] <= w.frames[RequestVoteResponse(t, true, v, c)]
  }

  /** Steps that grant, count and win nothing. */
  lemma QuietKeepsInv(w: World, x: World)
    requires Inv(w)
    requires x.granted == w.granted && x.campaigned == w.campaigned && x.counted == w.counted
    requires x.won == w.won && x.running <= w.running && x.nodes.Keys == w.nodes.Keys
    requires forall n <- w.nodes :: NodeKept(w.nodes[n], x.nodes[n])
    requires forall c: u64, t: nat :: (c, t) in w.campaigned ==> TallyKept(w, x, c, t)
    requires forall c: u64, t: nat, v: u64 :: FramesKept(w, x, c, t, v)
    ensures Inv(x)
  {
    assert |x.nodes| == |x.nodes.Keys| == |w.nodes|;
    forall v: u64, t: nat | (v, t) in x.granted ensures GrantOk(x, v, t) {
      assert GrantOk(w, v, t);
    }
    forall c: u64, t: nat | (c, t) in x.campaigned ensures CampaignOk(x, c, t) && TallyOk(x, c, t) {
      assert CampaignOk(w, c, t) && TallyOk(w, c, t) && TallyKept(w, x, c, t);
      VotersSame(w.counted, x.counted, c, t);
    }
    forall c: u64, t: nat, v: u64 ensures TokenOk(x, c, t, v) && VoteOk(x, c, t, v) {
      assert TokenOk(w, c, t, v) && VoteOk(w, c, t, v) && FramesKept(w, x, c, t, v);
    }
    forall c: u64, t: nat | (c, t) in x.won
      ensures 1 + |Voters(x.counted, c, t)| >= Quorum(|x.nodes|)
    {
      VotersSame(w.counted, x.counted, c, t);
    }
  }

  lemma StartElectionKeepsInv(w: World, n: u64)
    requires Inv(w) && n in w.nodes
    ensures Inv(Exec(w, StartElection(n)))
  {
    hide Voters, Quorum, Asked;
    var x := Exec(w, StartElection(n));
    var next: nat := w.nodes[n].currentTerm + 1;
    assert x.nodes.Keys == w.nodes.Keys && x.counted == w.counted;
    assert |x.nodes| == |x.nodes.Keys| == |w.nodes.Keys| == |w.nodes|;
    assert (n, next) in w.campaigned ==> CampaignOk(w, n, next);
    assert (n, next) in w.granted ==> GrantOk(w, n, next);
    forall v: u64, t: nat | (v, t) in x.granted ensures GrantOk(x, v, t) {
      assert (v, t) in w.granted ==> GrantOk(w, v, t);
    }
    forall c: u64, t: nat | (c, t) in x.campaigned ensures CampaignOk(x, c, t) && TallyOk(x, c, t) {
      if (c, t) != (n, next) {
        assert CampaignOk(w, c, t) && TallyOk(w, c, t);
      }
    }
    forall c: u64, t: nat, v: u64 ensures TokenOk(x, c, t, v) && VoteOk(x, c, t, v) {
      assert TokenOk(w, c, t, v) && VoteOk(w, c, t, v);
      AskedFrames(w, next, n, c, t, v);
    }
  }

  lemma AskedFrames(w: World, term: nat, n: u64, c: u64, t: nat, v: u64)
    ensures multiset(Asked(w, term, n))[RequestVote(t, c, v)]
         == One(c == n && t == term && v in w.nodes && v != n)
    ensures multiset(Asked(w, term, n))[RequestVoteResponse(t, true, v, c)] == 0
  {
    if c == n && t == term && v in w.nodes && v != n {
      assert RequestVote(t, c, v) in Asked(w, term, n);
    }
  }

  /** Only requests of real candidates are in flight, and no candidate's id is zero. */
  lemma RequestsAreReal(w: World, f: Frame)
    requires Inv(w) && f in w.frames && f.RequestVote?
    ensures f.candidate != 0
  {
    assert TokenOk(w, f.candidate, f.term, f.dest);
    assert f == RequestVote(f.term, f.candidate, f.dest);
    assert CampaignOk(w, f.candidate, f.term);
  }

  lemma GrantKeepsTokens(w: World, f: Frame, c: u64, t: nat, v: u64)
    requires Inv(w) && Enabled(w, AnswerRequest(f), false)
    requires GrantVote(w.nodes[f.dest], f.term, f.candidate).1
    ensures var x := Exec(w, AnswerRequest(f)); TokenOk(x, c, t, v) && VoteOk(x, c, t, v)
  {
    var x := Exec(w, AnswerRequest(f));
    assert x.frames == w.frames - multiset{f} + multiset{RequestVoteResponse(f.term, true, f.dest, f.candidate)};
    assert x.nodes.Keys == w.nodes.Keys;
    assert f == RequestVote(f.term, f.candidate, f.dest);
    assert TokenOk(w, f.candidate, f.term, f.dest) && TokenOk(w, c, t, v) && VoteOk(w, c, t, v);
    assert (v, t) in w.granted ==> GrantOk(w, v, t);
    hide Inv;
  }

  lemma GrantKeepsInv(w: World, f: Frame)
    requires Inv(w) && Enabled(w, AnswerRequest(f), false)
    requires GrantVote(w.nodes[f.dest], f.term, f.candidate).1
    ensures Inv(Exec(w, AnswerRequest(f)))
  {
    hide Voters, Quorum, TokenOk, VoteOk;
    var x := Exec(w, AnswerRequest(f));
    assert x.nodes.Keys == w.nodes.Keys && x.counted == w.counted;
    assert |x.nodes| == |x.nodes.Keys| == |w.nodes.Keys| == |w.nodes|;
    RequestsAreReal(w, f);
    forall v: u64, t: nat | (v, t) in x.granted ensures GrantOk(x, v, t) {
      assert (v, t) in w.granted ==> GrantOk(w, v, t);
    }
    forall c: u64, t: nat | (c, t) in x.campaigned ensures CampaignOk(x, c, t) && TallyOk(x, c, t) {
      assert CampaignOk(w, c, t) && TallyOk(w, c, t) && GrantOk(w, c, t);
    }
    forall c: u64, t: nat, v: u64 ensures TokenOk(x, c, t, v) && VoteOk(x, c, t, v) {
      GrantKeepsTokens(w, f, c, t, v);
    }
  }

  lemma CountKeepsInv(w: World, f: Frame)
    requires Inv(w) && Enabled(w, CountResponse(f), false) && f.granted
    ensures Inv(Exec(w, CountResponse(f)))
  {
    var x := Exec(w, CountResponse(f));
    assert |x.nodes| == |x.nodes.Keys| == |w.nodes.Keys| by { assert x.nodes.Keys == w.nodes.Keys; }
    assert TokenOk(w, f.dest, f.term, f.from) && VoteOk(w, f.dest, f.term, f.from);
    assert f == RequestVoteResponse(f.term, true, f.from, f.dest);
    VotersCount(w.counted, x.counted, f.dest, f.term, f.from);
    forall v: u64, t: nat | (v, t) in x.granted ensures GrantOk(x, v, t) {
      assert GrantOk(w, v, t);
    }
    forall c: u64, t: nat | (c, t) in x.campaigned ensures CampaignOk(x, c, t) && TallyOk(x, c, t) {
      assert CampaignOk(w, c, t) && TallyOk(w, c, t);
      if (c, t) != (f.dest, f.term) { VotersSame(w.counted, x.counted, c, t); }
    }
    forall c: u64, t: nat, v: u64 ensures TokenOk(x, c, t, v) && VoteOk(x, c, t, v) {
      assert TokenOk(w, c, t, v) && VoteOk(w, c, t, v);
    }
    forall c: u64, t: nat | (c, t) in x.won
      ensures 1 + |Voters(x.counted, c, t)| >= Quorum(|x.nodes|)
    {
      if (c, t) != (f.dest, f.term) { VotersSame(w.counted, x.counted, c, t); }
    }
  }

  lemma WinnerKeepsInv(y: World, x: World, n: u64, t: nat)
    requires Inv(y) && x == y.(won := y.won + {(n, t)})
    requires (n, t) in y.campaigned && 1 + |Voters(y.counted, n, t)| >= Quorum(|y.nodes|)
    ensures Inv(x)
  {
    hide Voters, Quorum;
    forall v: u64, u: nat | (v, u) in x.granted ensures GrantOk(x, v, u) {
      assert GrantOk(y, v, u);
    }
    forall c: u64, u: nat | (c, u) in x.campaigned ensures CampaignOk(x, c, u) && TallyOk(x, c, u) {
      assert CampaignOk(y, c, u) && TallyOk(y, c, u);
    }
    forall c: u64, u: nat, v: u64 ensures TokenOk(x, c, u, v) && VoteOk(x, c, u, v) {
      assert TokenOk(y, c, u, v) && VoteOk(y, c, u, v);
    }
  }

  lemma WinKeepsInv(w: World, n: u64, t: nat)
    requires Inv(w) && Enabled(w, Poll(n, t), false)
    requires PollElection(w.nodes[n], n, t, Quorum(|w.nodes|)).Won?
    ensures Inv(Exec(w, Poll(n, t)))
  {
    hide Quorum, Voters;
    var x := Exec(w, Poll(n, t));
    assert (n, t) in w.campaigned && TallyOk(w, n, t) && CampaignOk(w, n, t);
    assert t in w.nodes[n].electionVotes ==> w.nodes[n].electionVotes[t] >= Quorum(|w.nodes|);
    assert 1 + |Voters(w.counted, n, t)| >= Quorum(|w.nodes|) by { hide Inv; QuorumIsPositive(|w.nodes|); }
    var y := x.(won := w.won);
    assert y.nodes.Keys == w.nodes.Keys;
    assert |y.nodes| == |y.nodes.Keys| == |w.nodes.Keys|;
    assert forall c: u64, u: nat :: TallyKept(w, y, c, u);
    assert forall c: u64, u: nat, v: u64 :: FramesKept(w, y, c, u, v);
    assert forall m <- w.nodes :: NodeKept(w.nodes[m], y.nodes[m]);
    hide Inv, Exec, TallyKept, FramesKept, NodeKept, TallyOk, CampaignOk;
    QuietKeepsInv(w, y);
    WinnerKeepsInv(y, x, n, t);
  }

  lemma QuorumIsPositive(n: nat)
    ensures Quorum(n) > 0
  {
  }

  predicate Quiet(w: World, step: Step)
    requires Enabled(w, step, true)
  {
    match step
    case StartElection(_) => false
    case AnswerRequest(f) => !GrantVote(w.nodes[f.dest], f.term, f.candidate).1
    case CountResponse(f) => !f.granted
    case Poll(n, t) => !PollElection(w.nodes[n], n, t, Quorum(|w.nodes|)).Won?
    case _ => true
  }

  lemma QuietStepKeepsInv(w: World, step: Step)
    requires Inv(w) && Enabled(w, step, false) && Quiet(w, step)
    ensures Inv(Exec(w, step))
  {
    var x := Exec(w, step);
    QuietHistory(w, step);
    forall c: u64, t: nat | (c, t) in w.campaigned ensures TallyKept(w, x, c, t) {
      assert CampaignOk(w, c, t);
      QuietTally(w, step, c, t);
    }
    forall c: u64, t: nat, v: u64 ensures FramesKept(w, x, c, t, v) {
      QuietFrames(w, step, c, t, v);
    }
    hide *;
    QuietKeepsInv(w, x);
  }

  /** The nodes are as they were, except at most one, which is kept. */
  ghost predicate OneKept(w: World, nodes: map<u64, Node>, n: u64) {
    || nodes == w.nodes
    || (&& n in w.nodes && n in nodes && nodes == w.nodes[n := nodes[n]]
        && NodeKept(w.nodes[n], nodes[n]))
  }

  lemma OneKeptKeepsAll(w: World, nodes: map<u64, Node>, n: u64)
    requires OneKept(w, nodes, n)
    ensures nodes.Keys == w.nodes.Keys && forall m <- w.nodes :: NodeKept(w.nodes[m], nodes[m])
  {
  }

  lemma QuietStep(w: World, step: Step) returns (n: u64)
    requires Enabled(w, step, false) && Quiet(w, step)
    ensures var x := Exec(w, step);
      && x.granted == w.granted && x.campaigned == w.campaigned && x.counted == w.counted
      && x.won == w.won && x.running <= w.running && OneKept(w, x.nodes, n)
  {
    n := 0;
    match step
    case StartPreVote(m) => n := m;
    case AnswerPreVote(f) =>
    case CountPreVote(f) => n := f.dest;
    case EndPreVote(m, u) => n := m;
    case AnswerRequest(f) => n := f.dest;
    case CountResponse(f) => n := f.dest;
    case Poll(m, u) => n := m;
    case GiveUp(m, u) => n := m;
    case Heartbeat(m, u, l) => n := m;
    case Lose(f) =>
  }

  lemma QuietHistory(w: World, step: Step)
    requires Enabled(w, step, false) && Quiet(w, step)
    ensures var x := Exec(w, step);
      && x.granted == w.granted && x.campaigned == w.campaigned && x.counted == w.counted
      && x.won == w.won && x.running <= w.running && x.nodes.Keys == w.nodes.Keys
      && forall n <- w.nodes :: NodeKept(w.nodes[n], x.nodes[n])
  {
    var n := QuietStep(w, step);
    hide *;
    OneKeptKeepsAll(w, Exec(w, step).nodes, n);
  }

  lemma QuietTally(w: World, step: Step, c: u64, t: nat)
    requires Enabled(w, step, false) && Quiet(w, step)
    requires (c, t) in w.campaigned && c in w.nodes && t <= w.nodes[c].currentTerm
    ensures TallyKept(w, Exec(w, step), c, t)
  {
    match step
    case StartPreVote(n) => assert Exec(w, step).nodes == w.nodes[n := BeginPreVote(w.nodes[n])];
    case AnswerPreVote(f) => assert Exec(w, step).nodes == w.nodes;
    case CountPreVote(f) => CountPreVoteTally(w, f, c, t);
    case AnswerRequest(f) => AnswerRequestTally(w, f, c, t);
    case Poll(n, u) => PollTally(w, n, u, c, t);
    case _ =>
  }

  lemma CountPreVoteTally(w: World, f: Frame, c: u64, t: nat)
    requires Enabled(w, CountPreVote(f), false) && (c, t) in w.campaigned && c in w.nodes
    ensures TallyKept(w, Exec(w, CountPreVote(f)), c, t)
  {
  }

  lemma AnswerRequestTally(w: World, f: Frame, c: u64, t: nat)
    requires Enabled(w, AnswerRequest(f), false) && c in w.nodes
    ensures TallyKept(w, Exec(w, AnswerRequest(f)), c, t)
  {
  }

  lemma PollTally(w: World, n: u64, u: nat, c: u64, t: nat)
    requires Enabled(w, Poll(n, u), false) && c in w.nodes
    ensures TallyKept(w, Exec(w, Poll(n, u)), c, t)
  {
    hide Quorum;
  }

  lemma QuietFrames(w: World, step: Step, c: u64, t: nat, v: u64)
    requires Enabled(w, step, false) && Quiet(w, step)
    ensures FramesKept(w, Exec(w, step), c, t, v)
  {
    hide Quorum, WouldGrant, AskedFirst, Asked, BeginElection, GrantVote, TallyVote, DropTracker;
    if step.StartPreVote? {
      PreVotesOnly(w, w.nodes[step.node].currentTerm + 1, step.node, c, t, v);
    }
  }

  lemma PreVotesOnly(w: World, term: nat, n: u64, c: u64, t: nat, v: u64)
    ensures multiset(AskedFirst(w, term, n))[RequestVote(t, c, v)] == 0
    ensures multiset(AskedFirst(w, term, n))[RequestVoteResponse(t, true, v, c)] == 0
  {
  }

  lemma StepKeepsInv(w: World, step: Step)
    requires Inv(w) && Enabled(w, step, false)
    ensures Inv(Exec(w, step))
  {
    if Quiet(w, step) {
      QuietStepKeepsInv(w, step);
    } else {
      match step
      case StartElection(n) => StartElectionKeepsInv(w, n);
      case AnswerRequest(f) => GrantKeepsInv(w, f);
      case CountResponse(f) => CountKeepsInv(w, f);
      case Poll(n, t) => WinKeepsInv(w, n, t);
    }
  }

  ghost predicate Remembers(w: World, x: World) {
    && x.nodes.Keys == w.nodes.Keys
    && (forall n <- w.nodes :: w.nodes[n].currentTerm <= x.nodes[n].currentTerm)
    && (forall v: u64, t: nat :: (v, t) in w.granted ==>
          (v, t) in x.granted && x.granted[(v, t)] == w.granted[(v, t)])
  }

  lemma StartKeepsGrants(w: World, n: u64)
    requires Inv(w) && n in w.nodes
    ensures Remembers(w, Exec(w, StartElection(n)))
  {
    var next: nat := w.nodes[n].currentTerm + 1;
    assert (n, next) in w.granted ==> GrantOk(w, n, next);
    hide Inv, Asked;
  }

  lemma AnswerKeepsGrants(w: World, f: Frame)
    requires Inv(w) && Enabled(w, AnswerRequest(f), false)
    ensures Remembers(w, Exec(w, AnswerRequest(f)))
  {
    RequestsAreReal(w, f);
    assert (f.dest, f.term) in w.granted ==> GrantOk(w, f.dest, f.term);
    hide Inv;
  }

  lemma CountKeepsGrants(w: World, f: Frame)
    requires Enabled(w, CountResponse(f), false)
    ensures Remembers(w, Exec(w, CountResponse(f)))
  {
  }

  lemma PollKeepsGrants(w: World, n: u64, t: nat)
    requires Enabled(w, Poll(n, t), false)
    ensures Remembers(w, Exec(w, Poll(n, t)))
  {
    hide Quorum;
  }

  /** Terms never decrease, and a vote once granted for a term is never given to another. */
  lemma StepKeepsGrants(w: World, step: Step)
    requires Inv(w) && Enabled(w, step, false)
    ensures Remembers(w, Exec(w, step))
  {
    if Quiet(w, step) {
      QuietHistory(w, step);
      hide Exec, Inv, Enabled;
    } else {
      hide Remembers, Inv, Exec;
      match step
      case StartElection(n) => StartKeepsGrants(w, n);
      case AnswerRequest(f) => AnswerKeepsGrants(w, f);
      case CountResponse(f) => CountKeepsGrants(w, f);
      case Poll(n, t) => PollKeepsGrants(w, n, t);
    }
  }

  lemma RunStep(run: seq<World>, steps: seq<Step>, i: nat, late: bool)
    requires IsRun(run, steps, late) && i + 1 < |run|
    ensures i < |steps| && Enabled(run[i], steps[i], late) && run[i + 1] == Exec(run[i], steps[i])
  {
    hide Init, Enabled, Exec;
  }

  lemma InitHasInv(w: World)
    requires Init(w)
    ensures Inv(w)
  {
  }

  lemma {:induction false} RunKeepsInv(run: seq<World>, steps: seq<Step>, i: nat)
    requires IsRun(run, steps, false) && i < |run|
    ensures Inv(run[i])
  {
    hide Inv, Init, Enabled, Exec;
    if i == 0 {
      InitHasInv(run[0]);
    } else {
      RunKeepsInv(run, steps, i - 1);
      RunStep(run, steps, i - 1, false);
      StepKeepsInv(run[i - 1], steps[i - 1]);
    }
  }

  /** Over a whole run: terms never decrease, and each node's vote for a term is final. */
  lemma {:induction false} VotesAreFinal(run: seq<World>, steps: seq<Step>, i: nat, j: nat)
    requires IsRun(run, steps, false) && i <= j < |run|
    ensures Remembers(run[i], run[j])
    decreases j - i
  {
    hide *;
    if i == j {
      RemembersItself(run[i]);
    } else {
      VotesAreFinal(run, steps, i, j - 1);
      RunKeepsInv(run, steps, j - 1);
      RunStep(run, steps, j - 1, false);
      StepKeepsGrants(run[j - 1], steps[j - 1]);
      RemembersOnward(run[i], run[j - 1], run[j]);
    }
  }

  lemma RemembersItself(w: World)
    ensures Remembers(w, w)
  {
  }

  lemma RemembersOnward(w: World, x: World, y: World)
    requires Remembers(w, x) && Remembers(x, y)
    ensures Remembers(w, y)
  {
  }

  /** Those who granted `c` the term `t`: everyone counted, and the candidate. */
  lemma WinnersBackers(w: World, c: u64, t: nat)
    requires Inv(w) && (c, t) in w.won
    ensures var backers := Voters(w.counted, c, t) + {c};
      && backers <= w.nodes.Keys && |backers| >= Quorum(|w.nodes.Keys|)
      && forall v <- backers :: (v, t) in w.granted && w.granted[(v, t)] == c
  {
    assert CampaignOk(w, c, t);
    assert |w.nodes| == |w.nodes.Keys|;
    forall v | v in Voters(w.counted, c, t)
      ensures v in w.nodes && v != c && (v, t) in w.granted && w.granted[(v, t)] == c
    {
      VoterCounted(w.counted, c, t, v);
      assert TokenOk(w, c, t, v) && VoteOk(w, c, t, v);
    }
  }

  /** No two nodes ever win the same term. */
  lemma ElectionUniqueness(run: seq<World>, steps: seq<Step>, i: nat, a: u64, b: u64, t: nat)
    requires IsRun(run, steps, false) && i < |run|
    requires (a, t) in run[i].won && (b, t) in run[i].won
    ensures a == b
  {
    var w := run[i];
    RunKeepsInv(run, steps, i);
    WinnersBackers(w, a, t);
    WinnersBackers(w, b, t);
    MajoritiesOverlap(w.nodes.Keys, Voters(w.counted, a, t) + {a}, Voters(w.counted, b, t) + {b});
    var v :| v in (Voters(w.counted, a, t) + {a}) * (Voters(w.counted, b, t) + {b});
  }

  // Pre-vote and vote replies share one tally, so a late pre-vote reply counts as a vote.

  ghost predicate Reachable(w: World, late: bool) {
    exists run, steps :: IsRun(run, steps, late) && run[|run| - 1] == w
  }

  lemma Reach(w: World, step: Step, late: bool) returns (x: World)
    requires Reachable(w, late) && Enabled(w, step, late)
    ensures Enabled(w, step, true) && x == Exec(w, step) && Reachable(x, late)
  {
    hide Exec, Enabled, Init;
    LateAllowsMore(w, step, late);
    var run, steps :| IsRun(run, steps, late) && run[|run| - 1] == w;
    hide IsRun;
    x := Exec(w, step);
    RunLonger(run, steps, w, step, late);
    assert (run + [x])[|run|] == x;
  }

  lemma RunLonger(run: seq<World>, steps: seq<Step>, w: World, step: Step, late: bool)
    requires IsRun(run, steps, late) && |run| > 0 && run[|run| - 1] == w
    requires Enabled(w, step, late) && Enabled(w, step, true)
    ensures IsRun(run + [Exec(w, step)], steps + [step], late)
  {
    hide Exec, Enabled, Init;
  }

  lemma LateAllowsMore(w: World, step: Step, late: bool)
    requires Enabled(w, step, late)
    ensures Enabled(w, step, true)
  {
  }

  lemma NewNodes(nodes: set<u64>, late: bool) returns (w: World)
    requires nodes != {} && 0 !in nodes
    ensures Reachable(w, late) && w.nodes.Keys == nodes && w.won == {} && w.counted == {}
    ensures forall n <- w.nodes :: w.nodes[n] == NewNode(n)
  {
    w := World(map n | n in nodes :: NewNode(n), multiset{}, {}, {}, map[], {}, {});
    var n :| n in nodes;
    assert n in w.nodes && w.nodes.Keys == nodes;
    hide Enabled, Exec, NewNode;
    assert IsRun([w], [], late) && [w][|[w]| - 1] == w;
  }

  /** The grant of a pre-vote for term 2. */
  function Late(n: u64, v: u64): Frame {
    PreVoteResponse(2, true, v, n)
  }

  lemma AsksAll(w: World, n: u64, v: u64)
    requires v in w.nodes && v != n
    ensures PreVote(2, n, v) in AskedFirst(w, 2, n) && Late(n, v) !in AskedFirst(w, 2, n)
  {
  }

  lemma Exchange(frames: multiset<Frame>, asked: set<Frame>, ask: Frame, reply: Frame)
    requires ask in asked && reply !in asked
    ensures var after := frames + multiset(asked) - multiset{ask} + multiset{reply};
      after[reply] == frames[reply] + 1 && frames <= after
  {
    assert multiset(asked)[ask] == 1 && multiset(asked)[reply] == 0;
  }

  lemma Ask(w: World, n: u64) returns (x: World)
    requires Reachable(w, true) && n in w.nodes && |w.nodes| > 1 && w.nodes[n] == NewNode(n)
    ensures Reachable(x, true)
    ensures x == w.(nodes := w.nodes[n := BeginPreVote(w.nodes[n])], frames := w.frames + multiset(AskedFirst(w, 2, n)))
  {
    hide Reachable, BeginPreVote, AskedFirst;
    x := Reach(w, StartPreVote(n), true);
  }

  lemma Answer(w: World, n: u64, v: u64) returns (x: World)
    requires Reachable(w, true) && v in w.nodes && w.nodes[v] == NewNode(v) && PreVote(2, n, v) in w.frames
    ensures Reachable(x, true)
    ensures x == w.(frames := w.frames - multiset{PreVote(2, n, v)} + multiset{Late(n, v)})
  {
    hide Reachable;
    assert WouldGrant(w.nodes[v], 2, n);
    hide WouldGrant, NewNode;
    x := Reach(w, AnswerPreVote(PreVote(2, n, v)), true);
  }

  lemma End(w: World, n: u64, node: Node) returns (x: World)
    requires Reachable(w, true) && n in w.nodes && DropTracker(w.nodes[n], 2) == node
    ensures Reachable(x, true) && x == w.(nodes := w.nodes[n := node])
  {
    hide Reachable, DropTracker;
    x := Reach(w, EndPreVote(n, 2), true);
  }

  lemma TrackerDropped(n: u64, votes: nat)
    ensures DropTracker(NewNode(n).(electionVotes := map[2 := votes]), 2) == NewNode(n)
    ensures BeginPreVote(NewNode(n)) == NewNode(n).(electionVotes := map[2 := 1])
  {
    assert map[2 := votes] - {2} == map[];
  }

  /** A pre-vote of `n` that ends before the grant of `v` arrives. */
  lemma PreVoteInVain(w: World, n: u64, v: u64) returns (x: World)
    requires Reachable(w, true) && n in w.nodes && v in w.nodes && n != v && |w.nodes| > 1
    requires w.nodes[n] == NewNode(n) && w.nodes[v] == NewNode(v)
    ensures Reachable(x, true) && x.nodes == w.nodes && x.won == w.won
    ensures x.frames[Late(n, v)] == w.frames[Late(n, v)] + 1 && w.frames <= x.frames
  {
    hide *;
    var ask, asked := PreVote(2, n, v), AskedFirst(w, 2, n);
    AsksAll(w, n, v);
    Exchange(w.frames, asked, ask, Late(n, v));
    var y := Ask(w, n);
    assert y.frames == w.frames + multiset(asked) && ask in y.frames;
    var z := Answer(y, n, v);
    assert z.frames == w.frames + multiset(asked) - multiset{ask} + multiset{Late(n, v)};
    TrackerDropped(n, 1);
    x := End(z, n, NewNode(n));
    assert x.nodes == w.nodes;
  }

  /** Repeated pre-votes leave any number of grants on their way. */
  lemma {:induction false} GrantsPileUp(w: World, n: u64, v: u64, r: nat) returns (x: World)
    requires Reachable(w, true) && n in w.nodes && v in w.nodes && n != v && |w.nodes| > 1
    requires w.nodes[n] == NewNode(n) && w.nodes[v] == NewNode(v)
    ensures Reachable(x, true) && x.nodes == w.nodes && x.won == w.won
    ensures x.frames[Late(n, v)] >= r && w.frames <= x.frames
    decreases r
  {
    hide Reachable, NewNode;
    x := w;
    if r > 0 {
      x := GrantsPileUp(w, n, v, r - 1);
      x := PreVoteInVain(x, n, v);
    }
  }

  /** A node with more votes for term 2. */
  function WithVotes(n: Node, votes: nat): Node {
    n.(electionVotes := n.electionVotes[2 := votes])
  }

  /** Each grant that is on its way can be counted, whatever the tally is for. */
  lemma {:induction false} CountLate(w: World, n: u64, v: u64, k: nat, votes: nat) returns (x: World)
    requires Reachable(w, true) && n in w.nodes && w.frames[Late(n, v)] >= k
    requires 2 in w.nodes[n].electionVotes && w.nodes[n].electionVotes[2] == votes
    ensures Reachable(x, true) && x.won == w.won && x.running == w.running
    ensures x.nodes == w.nodes[n := WithVotes(w.nodes[n], votes + k)]
    ensures x.frames == w.frames[Late(n, v) := w.frames[Late(n, v)] - k]
    decreases k
  {
    hide Reachable;
    x := w;
    if k == 0 {
      assert WithVotes(w.nodes[n], votes) == w.nodes[n];
    } else {
      x := Reach(w, CountPreVote(Late(n, v)), true);
      assert x.nodes[n] == WithVotes(w.nodes[n], votes + 1);
      assert x.frames == w.frames - multiset{Late(n, v)};
      var y := x;
      hide Exec, Enabled;
      x := CountLate(y, n, v, k - 1, votes + 1);
      assert WithVotes(y.nodes[n], votes + k) == WithVotes(w.nodes[n], votes + k);
    }
  }

  /** With enough grants on their way, a pre-vote passes on half of them, and the election on the rest. */
  lemma WinsOnLateReplies(w: World, n: u64, v: u64) returns (x: World)
    requires Reachable(w, true) && n in w.nodes && n != v && |w.nodes| > 1 && w.nodes[n] == NewNode(n)
    requires w.frames[Late(n, v)] >= 2 * (Quorum(|w.nodes|) - 1)
    ensures Reachable(x, true) && x.won == w.won + {(n, 2)} && x.nodes.Keys == w.nodes.Keys
    ensures forall m <- w.nodes :: m != n ==> x.nodes[m] == w.nodes[m]
    ensures forall f <- w.frames :: f != Late(n, v) ==> w.frames[f] <= x.frames[f]
  {
    var needed := Quorum(|w.nodes|) - 1;
    hide *;
    var y := PassesPreVote(w, n, v, needed);
    x := RunsOnLateReplies(y, n, v, needed);
  }

  lemma PassesPreVote(w: World, n: u64, v: u64, needed: nat) returns (x: World)
    requires Reachable(w, true) && n in w.nodes && n != v && |w.nodes| > 1 && w.nodes[n] == NewNode(n)
    requires w.frames[Late(n, v)] >= 2 * needed
    ensures Reachable(x, true) && x.nodes == w.nodes && x.won == w.won && x.frames[Late(n, v)] >= needed
    ensures forall f <- w.frames :: f != Late(n, v) ==> w.frames[f] <= x.frames[f]
  {
    hide Reachable, AskedFirst;
    TrackerDropped(n, 1 + needed);
    x := Ask(w, n);
    assert w.frames <= x.frames && 2 in x.nodes[n].electionVotes && x.nodes[n].electionVotes[2] == 1;
    hide NewNode, BeginPreVote;
    x := CountLate(x, n, v, needed, 1);
    hide *;
    x := End(x, n, NewNode(n));
    assert x.nodes == w.nodes;
  }

  lemma Run(w: World, n: u64) returns (x: World)
    requires Reachable(w, true) && n in w.nodes && w.nodes[n] == NewNode(n)
    ensures Reachable(x, true) && (n, 2) in x.running && x.won == w.won && w.frames <= x.frames
    ensures x.nodes == w.nodes[n := BeginElection(w.nodes[n], n)]
  {
    hide Reachable, Asked;
    x := Reach(w, StartElection(n), true);
  }

  lemma RunsOnLateReplies(w: World, n: u64, v: u64, needed: nat) returns (x: World)
    requires Reachable(w, true) && n in w.nodes && n != v && w.nodes[n] == NewNode(n)
    requires w.frames[Late(n, v)] >= needed == Quorum(|w.nodes|) - 1
    ensures Reachable(x, true) && x.won == w.won + {(n, 2)} && x.nodes.Keys == w.nodes.Keys
    ensures forall m <- w.nodes :: m != n ==> x.nodes[m] == w.nodes[m]
    ensures forall f <- w.frames :: f != Late(n, v) ==> w.frames[f] <= x.frames[f]
  {
    hide Reachable, Quorum, Exec, Enabled;
    var y := Run(w, n);
    assert y.nodes[n].electionVotes[2] == 1 && y.nodes[n].currentTerm == 2;
    hide BeginElection, NewNode;
    var z := CountLate(y, n, v, needed, 1);
    assert z.nodes.Keys == w.nodes.Keys;
    assert |z.nodes| == |z.nodes.Keys| == |w.nodes.Keys| == |w.nodes|;
    x := Wins(z, n);
  }

  lemma Wins(w: World, n: u64) returns (x: World)
    requires Reachable(w, true) && n in w.nodes && (n, 2) in w.running && w.nodes[n].currentTerm == 2
    requires 2 in w.nodes[n].electionVotes && w.nodes[n].electionVotes[2] >= Quorum(|w.nodes|)
    ensures Reachable(x, true) && x.won == w.won + {(n, 2)} && x.nodes.Keys == w.nodes.Keys && x.frames == w.frames
    ensures forall m <- w.nodes :: m != n ==> x.nodes[m] == w.nodes[m]
  {
    hide Reachable, Quorum;
    x := Reach(w, Poll(n, 2), true);
  }

  /** With late pre-vote replies allowed, any two nodes of any cluster can win the same term. */
  lemma LateRepliesElectTwo(nodes: set<u64>, a: u64, b: u64) returns (x: World)
    requires 0 !in nodes && a in nodes && b in nodes && a != b
    ensures Reachable(x, true) && x.nodes.Keys == nodes && (a, 2) in x.won && (b, 2) in x.won
  {
    var w := NewNodes(nodes, true);
    assert |w.nodes| == |w.nodes.Keys| >= 2 by {
      Subset({a, b}, nodes);
    }
    var r := 2 * (Quorum(|w.nodes|) - 1);
    hide Reachable, NewNode, Quorum;
    x := GrantsPileUp(w, a, b, r);
    x := GrantsPileUp(x, b, a, r);
    var y := x;
    x := WinsOnLateReplies(y, a, b);
    assert |x.nodes| == |x.nodes.Keys| == |w.nodes|;
    x := WinsOnLateReplies(x, b, a);
  }

  ghost predicate OneWinnerEach(w: World) {
    forall a: u64, b: u64, t: nat :: (a, t) in w.won && (b, t) in w.won ==> a == b
  }

  lemma StepKeepsKeys(w: World, step: Step)
    requires Enabled(w, step, true)
    ensures Exec(w, step).nodes.Keys == w.nodes.Keys
  {
    hide BeginPreVote, BeginElection, DropTracker, TallyVote, GrantVote, VoteResponse, LeaderHeartbeat;
    hide Asked, AskedFirst, PollElection, WouldGrant, Quorum;
  }

  lemma OnlyPollsWin(w: World, step: Step)
    requires Enabled(w, step, true)
    ensures Exec(w, step).won <= if step.Poll? then w.won + {(step.node, step.term)} else w.won
    ensures step.Poll? ==> step.node in w.nodes
  {
    hide BeginPreVote, BeginElection, DropTracker, TallyVote, GrantVote, VoteResponse, LeaderHeartbeat;
    hide Asked, AskedFirst, PollElection, WouldGrant, Quorum;
  }

  lemma StepKeepsWinnersNodes(w: World, step: Step)
    requires Enabled(w, step, true) && forall a: u64, t: nat :: (a, t) in w.won ==> a in w.nodes
    ensures var x := Exec(w, step);
      x.nodes.Keys == w.nodes.Keys && forall a: u64, t: nat :: (a, t) in x.won ==> a in x.nodes
  {
    hide *;
    StepKeepsKeys(w, step);
    OnlyPollsWin(w, step);
  }

  lemma {:induction false} WinnersAreNodes(run: seq<World>, steps: seq<Step>, i: nat)
    requires IsRun(run, steps, true) && i < |run|
    ensures forall a: u64, t: nat :: (a, t) in run[i].won ==> a in run[i].nodes
    decreases i
  {
    hide Exec, Enabled;
    if i > 0 {
      WinnersAreNodes(run, steps, i - 1);
      RunStep(run, steps, i - 1, true);
      StepKeepsWinnersNodes(run[i - 1], steps[i - 1]);
    }
  }

  /**
   * So the condition in `ElectionUniqueness` cannot be dropped: with late pre-vote replies, the
   * clusters in which no term is won twice, in any run, are exactly those of one node.
   */
  lemma LateRepliesSafeIff(nodes: set<u64>)
    requires nodes != {} && 0 !in nodes
    ensures (forall w: World :: Reachable(w, true) && w.nodes.Keys == nodes ==> OneWinnerEach(w))
       <==> |nodes| == 1
  {
    hide Init, Exec, Enabled;
    var a :| a in nodes;
    assert |nodes - {a}| == |nodes| - 1;
    if |nodes| == 1 {
      assert nodes - {a} == {};
      forall w: World | Reachable(w, true) && w.nodes.Keys == nodes ensures OneWinnerEach(w) {
        var run, steps :| IsRun(run, steps, true) && run[|run| - 1] == w;
        WinnersAreNodes(run, steps, |run| - 1);
        hide IsRun;
        assert forall n <- nodes :: n != a ==> n in nodes - {a};
      }
    } else {
      assert nodes - {a} != {};
      var b :| b in nodes - {a};
      hide Reachable;
      var x := LateRepliesElectTwo(nodes, a, b);
      assert !OneWinnerEach(x);
    }
  }
}
