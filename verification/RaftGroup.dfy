// One queue's Raft group: the handlers of a member, and Log Matching over every run of the
// group.
module RaftGroup {
  import opened Bytes
  import opened ReplicatedLog

  datatype Command = Enqueue(msgId: u64, body: Octets) | Ack(msgId: u64)

  type Entries = Log<Command>

  const SENTINEL: LogEntry<Command> := LogEntry(0, 0, Ack(0))

  datatype Member = Member(
    currentTerm: nat, votedFor: Option<u64>, log: Entries, commitIndex: nat, role: Role,
    leaderId: Option<u64>)

  const NEW_MEMBER: Member := Member(0, None, [SENTINEL], 0, Follower, None)

  /** The AppendEntries frame. */
  datatype Frame = AppendEntries(
    term: nat, leaderId: u64, prevLogIndex: nat, prevLogTerm: nat, entries: Entries,
    leaderCommit: nat)

  function Min(a: nat, b: nat): nat {
    if a < b then a else b
  }

  function AppendLocal(m: Member, command: Command): Option<Member> {
    if m.role != Leader then None
    else Some(m.(log := m.log + [LogEntry(LastIndex(m.log) + 1, m.currentTerm, command)]))
  }

  /** The member after the frame, and whether it accepted the entries. */
  function HandleAppendEntries(m: Member, f: Frame): (Member, bool)
    requires Indexed(m.log)
  {
    if f.term < m.currentTerm then (m, false)
    else
      var follower := m.(currentTerm := f.term, role := Follower, leaderId := Some(f.leaderId),
                         votedFor := None);
      if !PrevMatches(m.log, f.prevLogIndex, f.prevLogTerm) then (follower, false)
      else
        var log := StoreAll(m.log, f.entries);
        var commit := if f.leaderCommit > m.commitIndex
                      then Min(f.leaderCommit, LastIndex(log)) else m.commitIndex;
        (follower.(log := log, commitIndex := commit), true)
  }

  /** Whether a candidate's log, by its last entry, is at least as up to date as this one. */
  predicate IsLogUpToDate(log: Entries, candidateIndex: nat, candidateTerm: nat) {
    if candidateTerm != LastTerm(log) then candidateTerm > LastTerm(log)
    else candidateIndex >= LastIndex(log)
  }

  class RaftQueueState {
    var currentTerm: nat
    var votedFor: Option<u64>
    var log: Entries
    var commitIndex: nat
    var role: Role
    var leaderId: Option<u64>

    function View(): Member
      reads this
    {
      Member(currentTerm, votedFor, log, commitIndex, role, leaderId)
    }

    constructor ()
      ensures View() == NEW_MEMBER
    {
      currentTerm, votedFor, log, commitIndex := 0, None, [SENTINEL], 0;
      role, leaderId := Follower, None;
    }

    method AppendLocalCommand(command: Command) returns (r: Option<(nat, nat)>)
      modifies this
      ensures match AppendLocal(old(View()), command)
        case None => r == None && View() == old(View())
        case Some(m) => View() == m && r == Some((LastIndex(m.log), m.currentTerm))
    {
      if role != Leader {
        return None;
      }
      var newIndex := LastIndex(log) + 1;
      log := log + [LogEntry(newIndex, currentTerm, command)];
      r := Some((newIndex, currentTerm));
    }

    /** Indexing the log at `prevLogIndex` is in range because entries sit at their index. */
    method HandleAppend(f: Frame) returns (term: nat, success: bool)
      requires Indexed(log)
      modifies this
      ensures (View(), success) == HandleAppendEntries(old(View()), f) && term == currentTerm
    {
      if f.term < currentTerm {
        return currentTerm, false;
      }
      currentTerm, role, leaderId, votedFor := f.term, Follower, Some(f.leaderId), None;
      if f.prevLogIndex > 0 {
        if f.prevLogIndex > LastIndex(log) {
          return currentTerm, false;
        }
        if log[f.prevLogIndex].term != f.prevLogTerm {
          return currentTerm, false;
        }
      }
      for i := 0 to |f.entries|
        invariant StoreAll(log, f.entries[i..]) == StoreAll(old(log), f.entries)
        invariant currentTerm == f.term && role == Follower && leaderId == Some(f.leaderId)
        invariant votedFor == None && commitIndex == old(commitIndex)
      {
        var entry := f.entries[i];
        var idx := entry.index;
        assert f.entries[i..][1..] == f.entries[i + 1..];
        if idx < |log| {
          if log[idx].term != entry.term {
            log := log[..idx];
            log := log + [entry];
          }
        } else {
          log := log + [entry];
        }
      }
      if f.leaderCommit > commitIndex {
        commitIndex := Min(f.leaderCommit, LastIndex(log));
      }
      return currentTerm, true;
    }
  }

  /**
   * What a frame does: whether it is accepted, by whom the member is led afterwards, what its log
   * then holds, and how far it is committed.
   */
  lemma FrameOutcome(m: Member, f: Frame)
    requires Indexed(m.log) && m.log != [] && Contiguous(f.entries, f.prevLogIndex)
    ensures var (after, accepted) := HandleAppendEntries(m, f);
      && (accepted <==>
            && f.term >= m.currentTerm
            && (|| f.prevLogIndex == 0
                || (f.prevLogIndex < |m.log| && m.log[f.prevLogIndex].term == f.prevLogTerm)))
      && (f.term < m.currentTerm ==> after == m)
      && (f.term >= m.currentTerm ==>
            && after.currentTerm == f.term && after.role == Follower && after.votedFor == None
            && after.leaderId == Some(f.leaderId))
      && (!accepted ==> after.log == m.log && after.commitIndex == m.commitIndex)
      && (accepted ==>
            && m.log[..f.prevLogIndex + 1] <= after.log
            && HoldsAll(after.log, m.log, f.prevLogIndex, f.entries)
            && CommitMoved(m.commitIndex, after.commitIndex, f.leaderCommit, |after.log| - 1))
  {
    if f.prevLogIndex < |m.log| {
      StoreAllMerges(m.log, f.prevLogIndex, f.entries);
      MergedHoldsAll(m.log, f.prevLogIndex, f.entries);
      MergedKeepsFront(m.log, f.prevLogIndex, f.entries);
      MergedIndexed(m.log, f.prevLogIndex, f.entries);
    }
    hide StoreAll, Merged, HoldsAll;
  }

  /** A leader adds a command behind its log, in its term; others refuse it. */
  lemma OnlyLeadersAppend(m: Member, command: Command)
    requires Indexed(m.log) && m.log != []
    ensures AppendLocal(m, command) ==
      if m.role == Leader then Some(m.(log := m.log + [LogEntry(|m.log|, m.currentTerm, command)])) else None
  {
  }

  // The group as a state machine.

  /**
   * Members, frames ever sent (a frame may be delivered late, in any order and repeatedly),
   * and two history variables: who has led each term, and for each (index, term) ever
   * appended by a leader, that leader's log up to it.
   */
  datatype Group = Group(
    members: map<u64, Member>, frames: set<Frame>, leaderOf: map<nat, u64>,
    appended: map<(nat, nat), Entries>)

  datatype Step =
    | Lead(node: u64, term: nat, vote: Option<u64>)
    | Append(node: u64, command: Command)
    | Send(node: u64, prev: nat, upTo: nat, commit: nat)
    | Deliver(node: u64, frame: Frame)

  ghost predicate Init(g: Group) {
    && (forall n <- g.members :: g.members[n] == NEW_MEMBER)
    && g.frames == {} && g.leaderOf == map[] && g.appended == map[]
  }

  /** Becoming leader is guarded only by "at most one leader per term". */
  ghost predicate Next(g: Group, h: Group, step: Step) {
    step.node in g.members &&
    var m := g.members[step.node];
    match step
    case Lead(n, t, vote) =>
      && t >= m.currentTerm && (t in g.leaderOf ==> g.leaderOf[t] == n)
      && h == g.(members := g.members[n := m.(currentTerm := t, role := Leader,
                                              leaderId := Some(n), votedFor := vote)],
                 leaderOf := g.leaderOf[t := n])
    case Append(n, command) =>
      (match AppendLocal(m, command)
       case None => h == g
       case Some(after) =>
         h == g.(members := g.members[n := after],
                 appended := g.appended[(LastIndex(after.log), m.currentTerm) := after.log]))
    case Send(n, prev, upTo, commit) =>
      && m.role == Leader && prev < upTo <= |m.log|
      && h == g.(frames := g.frames + {
                   AppendEntries(m.currentTerm, n, prev, m.log[prev].term,
                                 m.log[prev + 1..upTo], commit)})
    case Deliver(n, f) =>
      && f in g.frames && f.leaderId != n && Indexed(m.log)
      && h == g.(members := g.members[n := HandleAppendEntries(m, f).0])
  }

  /** A run: any finite sequence of steps from the initial state. */
  ghost predicate IsRun(run: seq<Group>, steps: seq<Step>) {
    && |run| == |steps| + 1 && Init(run[0])
    && forall i :: 0 <= i < |steps| ==> Next(run[i], run[i + 1], steps[i])
  }

  // The invariant.

  /** Every prefix of the log that ends in an entry is what a leader had when appending it. */
  ghost predicate Traced(appended: map<(nat, nat), Entries>, log: Entries) {
    && Indexed(log) && log[0] == SENTINEL
    && forall i :: 1 <= i < |log| ==>
         (i, log[i].term) in appended && appended[(i, log[i].term)] == log[..i + 1]
  }

  /** What the sender's log was, up to the last entry of the frame. */
  ghost predicate Carries(appended: map<(nat, nat), Entries>, f: Frame, full: Entries) {
    && Traced(appended, full)
    && |full| == f.prevLogIndex + 1 + |f.entries|
    && full[f.prevLogIndex].term == f.prevLogTerm
    && full[f.prevLogIndex + 1..] == f.entries
  }

  ghost predicate FrameOk(g: Group, f: Frame) {
    && f.term in g.leaderOf && g.leaderOf[f.term] == f.leaderId
    && exists full :: Carries(g.appended, f, full)
  }

  /** The leader of a term that is still in it holds everything appended in it. */
  ghost predicate AppendedOk(g: Group, i: nat, t: nat) {
    && i >= 1 && t in g.leaderOf && g.leaderOf[t] in g.members
    && var m := g.members[g.leaderOf[t]];
      m.currentTerm > t || (m.currentTerm == t && i < |m.log| && m.log[i].term == t)
  }

  ghost predicate Inv(g: Group) {
    && (forall n <- g.members :: Traced(g.appended, g.members[n].log))
    && (forall n <- g.members :: g.members[n].role == Leader ==>
          g.members[n].currentTerm in g.leaderOf && g.leaderOf[g.members[n].currentTerm] == n)
    && (forall t <- g.leaderOf ::
          g.leaderOf[t] in g.members && g.members[g.leaderOf[t]].currentTerm >= t)
    && (forall i: nat, t: nat :: (i, t) in g.appended ==> AppendedOk(g, i, t))
    && (forall f <- g.frames :: FrameOk(g, f))
  }

  lemma TracedPrefix(appended: map<(nat, nat), Entries>, log: Entries, n: nat)
    requires Traced(appended, log) && 1 <= n <= |log|
    ensures Traced(appended, log[..n])
  {
    forall i | 1 <= i < n
      ensures (i, log[i].term) in appended && appended[(i, log[i].term)] == log[..n][..i + 1]
    {
      assert log[..n][..i + 1] == log[..i + 1];
    }
  }

  lemma TracedGrows(
    appended: map<(nat, nat), Entries>, log: Entries, key: (nat, nat), value: Entries)
    requires Traced(appended, log) && key !in appended
    ensures Traced(appended[key := value], log)
  {
  }

  /** Traced logs that agree on the term at an index are the same up to it. */
  lemma TracedMatch(appended: map<(nat, nat), Entries>, a: Entries, b: Entries, i: nat)
    requires Traced(appended, a) && Traced(appended, b)
    requires i < |a| && i < |b| && a[i].term == b[i].term
    ensures a[..i + 1] == b[..i + 1]
  {
    if i == 0 {
      assert a[..1] == [a[0]] && b[..1] == [b[0]];
    }
  }

  /** Merging entries cut from a traced log leaves either the old log or the sender's. */
  lemma MergeTraced(appended: map<(nat, nat), Entries>, log: Entries, full: Entries, prev: nat)
    requires Traced(appended, log) && Traced(appended, full)
    requires prev < |log| && prev < |full| && log[prev].term == full[prev].term
    ensures StoreAll(log, full[prev + 1..]) == log || StoreAll(log, full[prev + 1..]) == full
  {
    SliceContiguous(full, prev);
    StoreAllMerges(log, prev, full[prev + 1..]);
    MergeOfSlice(log, full, prev);
    TracedMatch(appended, log, full, AgreedIndex(log, full, prev));
    Reassemble(full, AgreedIndex(log, full, prev) + 1);
    hide *;
  }

  lemma Reassemble(log: Entries, k: nat)
    requires k <= |log|
    ensures log[..k] + log[k..] == log
  {
  }

  lemma SliceContiguous(full: Entries, prev: nat)
    requires Indexed(full) && prev < |full|
    ensures Contiguous(full[prev + 1..], prev)
  {
  }

  /** The last index at which the merge finds the log and the sent entries in agreement. */
  function AgreedIndex(log: Entries, full: Entries, prev: nat): (i: nat)
    requires prev < |log| && prev < |full| && log[prev].term == full[prev].term
    ensures prev <= i < |log| && i < |full| && log[i].term == full[i].term
  {
    prev + Agreeing(log, prev, full[prev + 1..])
  }

  lemma MergeOfSlice(log: Entries, full: Entries, prev: nat)
    requires prev < |log| && prev < |full| && log[prev].term == full[prev].term
    ensures var i := AgreedIndex(log, full, prev);
      Merged(log, prev, full[prev + 1..]) == log
      || Merged(log, prev, full[prev + 1..]) == log[..i + 1] + full[i + 1..]
  {
  }

  lemma LeadKeepsInv(g: Group, h: Group, n: u64, t: nat, vote: Option<u64>)
    requires Inv(g) && Next(g, h, Lead(n, t, vote))
    ensures Inv(h)
  {
    hide Traced, Carries;
    forall f | f in h.frames
      ensures FrameOk(h, f)
    {
      assert FrameOk(g, f);
    }
    forall i: nat, u: nat | (i, u) in h.appended
      ensures AppendedOk(h, i, u)
    {
      assert AppendedOk(g, i, u);
    }
  }

  lemma AppendedFrameOk(g: Group, h: Group, f: Frame, key: (nat, nat), log: Entries)
    requires FrameOk(g, f) && key !in g.appended
    requires h.appended == g.appended[key := log] && h.leaderOf == g.leaderOf
    ensures FrameOk(h, f)
  {
    var full :| Carries(g.appended, f, full);
    TracedGrows(g.appended, full, key, log);
    hide Traced;
    assert Carries(h.appended, f, full);
  }

  lemma AppendKeepsInv(g: Group, h: Group, n: u64, command: Command)
    requires Inv(g) && Next(g, h, Append(n, command))
    ensures Inv(h)
  {
    var m := g.members[n];
    assert Indexed(m.log) by { assert Traced(g.appended, m.log); }
    hide Traced, FrameOk;
    if m.role == Leader {
      var after := AppendLocal(m, command).value;
      var key := (LastIndex(after.log), m.currentTerm);
      assert key.0 == |m.log|;
      assert key in g.appended ==> AppendedOk(g, key.0, key.1);
      forall k | k in h.members
        ensures Traced(h.appended, h.members[k].log)
      {
        TracedGrows(g.appended, g.members[k].log, key, after.log);
        if k == n {
          AppendedTraced(g.appended, m.log, after.log);
        }
      }
      forall f | f in h.frames
        ensures FrameOk(h, f)
      {
        AppendedFrameOk(g, h, f, key, after.log);
      }
      forall i: nat, u: nat | (i, u) in h.appended
        ensures AppendedOk(h, i, u)
      {
        if (i, u) != key {
          assert AppendedOk(g, i, u);
        }
      }
    }
  }

  lemma AppendedTraced(appended: map<(nat, nat), Entries>, log: Entries, longer: Entries)
    requires Traced(appended, log) && |longer| == |log| + 1 && longer[..|log|] == log
    requires longer[|log|].index == |log| && (|log|, longer[|log|].term) !in appended
    ensures Traced(appended[(|log|, longer[|log|].term) := longer], longer)
  {
    var now := appended[(|log|, longer[|log|].term) := longer];
    forall i | 0 <= i < |longer|
      ensures longer[i].index == i
      ensures i == 0 ==> longer[i] == SENTINEL
      ensures i >= 1 ==> (i, longer[i].term) in now && now[(i, longer[i].term)] == longer[..i + 1]
    {
      if i < |log| {
        assert longer[i] == longer[..|log|][i] && longer[..i + 1] == log[..i + 1];
      } else {
        assert longer[..i + 1] == longer;
      }
    }
  }

  lemma SendKeepsInv(g: Group, h: Group, n: u64, prev: nat, upTo: nat, commit: nat)
    requires Inv(g) && Next(g, h, Send(n, prev, upTo, commit))
    ensures Inv(h)
  {
    var m := g.members[n];
    var sent := AppendEntries(m.currentTerm, n, prev, m.log[prev].term, m.log[prev + 1..upTo], commit);
    TracedPrefix(g.appended, m.log, upTo);
    assert m.log[..upTo][prev + 1..] == m.log[prev + 1..upTo];
    assert Carries(h.appended, sent, m.log[..upTo]);
    forall f | f in h.frames
      ensures FrameOk(h, f)
    {
      if f != sent {
        assert FrameOk(g, f);
      }
    }
    forall i: nat, u: nat | (i, u) in h.appended
      ensures AppendedOk(h, i, u)
    {
      assert AppendedOk(g, i, u);
    }
  }

  lemma DeliveredTraced(g: Group, n: u64, f: Frame)
    requires Inv(g) && n in g.members && f in g.frames && Indexed(g.members[n].log)
    ensures Traced(g.appended, HandleAppendEntries(g.members[n], f).0.log)
  {
    var m := g.members[n];
    assert FrameOk(g, f) && Traced(g.appended, m.log);
    hide Inv, StoreAll;
    var full :| Carries(g.appended, f, full);
    if f.term >= m.currentTerm && PrevMatches(m.log, f.prevLogIndex, f.prevLogTerm) {
      MergeTraced(g.appended, m.log, full, f.prevLogIndex);
    }
  }

  lemma DeliverKeepsInv(g: Group, h: Group, n: u64, f: Frame)
    requires Inv(g) && Next(g, h, Deliver(n, f))
    ensures Inv(h)
  {
    hide Traced, Carries, StoreAll, PrevMatches;
    DeliveredTraced(g, n, f);
    assert FrameOk(g, f);
    forall i: nat, u: nat | (i, u) in h.appended
      ensures AppendedOk(h, i, u)
    {
      assert AppendedOk(g, i, u);
    }
    forall e | e in h.frames
      ensures FrameOk(h, e)
    {
      assert FrameOk(g, e);
    }
  }

  lemma StepKeepsInv(g: Group, h: Group, step: Step)
    requires Inv(g) && Next(g, h, step)
    ensures Inv(h)
  {
    match step
    case Lead(n, t, vote) => LeadKeepsInv(g, h, n, t, vote);
    case Append(n, command) => AppendKeepsInv(g, h, n, command);
    case Send(n, prev, upTo, commit) => SendKeepsInv(g, h, n, prev, upTo, commit);
    case Deliver(n, f) => DeliverKeepsInv(g, h, n, f);
  }

  lemma {:induction false} RunKeepsInv(run: seq<Group>, steps: seq<Step>, i: nat)
    requires IsRun(run, steps) && i < |run|
    ensures Inv(run[i])
  {
    if i > 0 {
      RunKeepsInv(run, steps, i - 1);
      StepKeepsInv(run[i - 1], run[i], steps[i - 1]);
    }
  }

  /**
   * Log Matching, over every run: two logs that hold an entry with the same index and term
   * are identical up to it; and every entry of every log sits at its own index.
   */
  lemma LogMatching(run: seq<Group>, steps: seq<Step>, i: nat, a: u64, b: u64, k: nat)
    requires IsRun(run, steps) && i < |run| && a in run[i].members && b in run[i].members
    ensures var x, y := run[i].members[a].log, run[i].members[b].log;
      && Indexed(x) && Indexed(y)
      && (k < |x| && k < |y| && x[k].term == y[k].term ==> x[..k + 1] == y[..k + 1])
  {
    RunKeepsInv(run, steps, i);
    var x, y := run[i].members[a].log, run[i].members[b].log;
    if k < |x| && k < |y| && x[k].term == y[k].term {
      TracedMatch(run[i].appended, x, y, k);
    }
  }

  lemma RunStep(run: seq<Group>, steps: seq<Step>, i: nat)
    requires IsRun(run, steps) && i + 1 < |run|
    ensures i < |steps| && Next(run[i], run[i + 1], steps[i])
  {
    hide Init, Next;
  }

  // Commit indexes come from leaders.

  ghost predicate CommitIsSent(g: Group, n: u64) {
    n in g.members && g.members[n].commitIndex > 0 ==>
      exists f :: f in g.frames && f.leaderCommit >= g.members[n].commitIndex
  }

  lemma StepKeepsCommitSent(g: Group, h: Group, step: Step, n: u64)
    requires Inv(g) && Next(g, h, step) && CommitIsSent(g, n)
    ensures CommitIsSent(h, n)
  {
    if step.Deliver? {
      var f := step.frame;
      assert FrameOk(g, f);
      var full :| Carries(g.appended, f, full);
      if f.prevLogIndex < |full| { SliceContiguous(full, f.prevLogIndex); }
      FrameOutcome(g.members[step.node], f);
      hide HandleAppendEntries, HoldsAll, Inv, Traced;
    } else {
      hide Inv;
    }
  }

  /** In every run, no member's commit index passes the highest one in the frames sent. */
  lemma {:induction false} CommitsAreSent(run: seq<Group>, steps: seq<Step>, i: nat, n: u64)
    requires IsRun(run, steps) && i < |run|
    ensures CommitIsSent(run[i], n)
  {
    if i > 0 {
      CommitsAreSent(run, steps, i - 1, n);
      RunKeepsInv(run, steps, i - 1);
      RunStep(run, steps, i - 1);
      hide *;
      StepKeepsCommitSent(run[i - 1], run[i], steps[i - 1], n);
    }
  }

  // What it means to be up to date.

  /** What a leader has appended in its term it still had when it appended more in it. */
  ghost predicate Nested(g: Group, i: nat, j: nat, t: nat) {
    (i, t) in g.appended && (j, t) in g.appended && i <= j ==>
      i < |g.appended[(j, t)]| && g.appended[(j, t)][i].term == t
  }

  lemma StepKeepsNested(g: Group, h: Group, step: Step, i: nat, j: nat, t: nat)
    requires Inv(g) && Next(g, h, step) && Nested(g, i, j, t)
    ensures Nested(h, i, j, t)
  {
    assert (i, t) in g.appended ==> AppendedOk(g, i, t);
    assert (j, t) in g.appended ==> AppendedOk(g, j, t);
    assert Traced(g.appended, g.members[step.node].log);
    hide HandleAppendEntries;
  }

  lemma {:induction false} AlwaysNested(run: seq<Group>, steps: seq<Step>, k: nat, i: nat, j: nat, t: nat)
    requires IsRun(run, steps) && k < |run|
    ensures Nested(run[k], i, j, t)
  {
    if k > 0 {
      AlwaysNested(run, steps, k - 1, i, j, t);
      RunKeepsInv(run, steps, k - 1);
      RunStep(run, steps, k - 1);
      hide *;
      StepKeepsNested(run[k - 1], run[k], steps[k - 1], i, j, t);
    }
  }

  lemma SameTermExtends(g: Group, x: Entries, y: Entries)
    requires Traced(g.appended, x) && Traced(g.appended, y) && LastTerm(x) == LastTerm(y) && |x| <= |y|
    requires Nested(g, |x| - 1, |y| - 1, LastTerm(x))
    ensures x <= y
  {
    var i := |x| - 1;
    assert y[..|y|] == y && x[..|x|] == x;
    TracedMatch(g.appended, x, y, i);
  }

  /**
   * By its last entry, a log is at least as up to date as another exactly when its last term
   * is later or it extends the other.
   */
  lemma UpToDateIff(run: seq<Group>, steps: seq<Step>, i: nat, a: u64, b: u64)
    requires IsRun(run, steps) && i < |run| && a in run[i].members && b in run[i].members
    ensures var x, y := run[i].members[a].log, run[i].members[b].log;
      && |x| > 0 && |y| > 0
      && (IsLogUpToDate(x, LastIndex(y), LastTerm(y)) <==>
            y[|y| - 1].term > x[|x| - 1].term || (y[|y| - 1].term == x[|x| - 1].term && x <= y))
  {
    var g := run[i];
    var x, y := g.members[a].log, g.members[b].log;
    RunKeepsInv(run, steps, i);
    assert Traced(g.appended, x) && Traced(g.appended, y);
    AlwaysNested(run, steps, i, |x| - 1, |y| - 1, LastTerm(x));
    hide IsRun, Inv, Nested;
    if LastTerm(x) == LastTerm(y) && |x| <= |y| { SameTermExtends(g, x, y); }
  }

  /** Two members whose logs are each up to date with the other hold the same log. */
  lemma MutuallyUpToDateIsEqual(run: seq<Group>, steps: seq<Step>, i: nat, a: u64, b: u64)
    requires IsRun(run, steps) && i < |run| && a in run[i].members && b in run[i].members
    ensures var x, y := run[i].members[a].log, run[i].members[b].log;
      && (IsLogUpToDate(x, LastIndex(y), LastTerm(y)) || IsLogUpToDate(y, LastIndex(x), LastTerm(x)))
      && (IsLogUpToDate(x, LastIndex(y), LastTerm(y)) && IsLogUpToDate(y, LastIndex(x), LastTerm(x))
          <==> x == y)
  {
    var x, y := run[i].members[a].log, run[i].members[b].log;
    RunKeepsInv(run, steps, i);
    LogMatching(run, steps, i, a, b, |x| - 1);
    assert x[..|x|] == x && y[..|y|] == y;
  }
}
