// The cluster-wide metadata group: committed commands are handed out exactly once, in order.
module Metadata {
  import opened Bytes
  import opened ReplicatedLog

  datatype Command =
    | DeclareExchange(name: Octets, kind: Octets, durable: bool)
    | DeleteExchange(name: Octets)
    | BindQueue(exchange: Octets, queue: Octets, routingKey: Octets)
    | UnbindQueue(exchange: Octets, queue: Octets, routingKey: Octets)
    | CreateVhost(name: Octets)
    | DeleteVhost(name: Octets)
    | CreateUser(username: Octets, passwordHash: Octets, tags: seq<Octets>)
    | DeleteUser(username: Octets)
    | SetPermission(username: Octets, vhost: Octets, configure: Octets, write: Octets, read: Octets)

  type Entries = Log<Command>

  datatype State = State(
    currentTerm: nat, votedFor: Option<u64>, log: Entries, commitIndex: nat, lastApplied: nat,
    role: Role, leaderId: Option<u64>)

  const NEW_STATE: State :=
    State(0, None, [LogEntry(0, 0, CreateVhost([]))], 0, 0, Follower, None)

  datatype Frame = AppendEntries(
    term: nat, leaderId: u64, prevLogIndex: nat, prevLogTerm: nat, entries: Entries,
    leaderCommit: nat)

  function Append(s: State, command: Command): Option<State> {
    if s.role != Leader then None
    else Some(s.(log := s.log + [LogEntry(LastIndex(s.log) + 1, s.currentTerm, command)]))
  }

  function HandleAppendEntries(s: State, f: Frame): (State, bool)
    requires Indexed(s.log)
  {
    if f.term < s.currentTerm then (s, false)
    else
      var follower := s.(currentTerm := f.term, role := Follower, leaderId := Some(f.leaderId),
                         votedFor := None);
      if !PrevMatches(s.log, f.prevLogIndex, f.prevLogTerm) then (follower, false)
      else
        var log := StoreAll(s.log, f.entries);
        var last := LastIndex(log);
        var commit := if f.leaderCommit <= s.commitIndex then s.commitIndex
                      else if f.leaderCommit < last then f.leaderCommit else last;
        (follower.(log := log, commitIndex := commit), true)
  }

  /** The commands at indexes after `applied` up to `commit`, as far as the log reaches. */
  function Unapplied(log: Entries, applied: nat, commit: nat): seq<Command>
    decreases commit - applied
  {
    if applied >= commit then []
    else
      (if applied + 1 < |log| then [log[applied + 1].command] else [])
      + Unapplied(log, applied + 1, commit)
  }

  function Drain(s: State): (State, seq<Command>) {
    (if s.lastApplied < s.commitIndex then s.(lastApplied := s.commitIndex) else s,
     Unapplied(s.log, s.lastApplied, s.commitIndex))
  }

  class MetadataRaftState {
    var currentTerm: nat
    var votedFor: Option<u64>
    var log: Entries
    var commitIndex: nat
    var lastApplied: nat
    var role: Role
    var leaderId: Option<u64>

    function View(): State
      reads this
    {
      State(currentTerm, votedFor, log, commitIndex, lastApplied, role, leaderId)
    }

    constructor ()
      ensures View() == NEW_STATE
    {
      currentTerm, votedFor, commitIndex, lastApplied := 0, None, 0, 0;
      log, role, leaderId := [LogEntry(0, 0, CreateVhost([]))], Follower, None;
    }

    method AppendCommand(command: Command) returns (r: Option<nat>)
      modifies this
      ensures match Append(old(View()), command)
        case None => r == None && View() == old(View())
        case Some(s) => View() == s && r == Some(LastIndex(s.log))
    {
      if role != Leader {
        return None;
      }
      var newIndex := LastIndex(log) + 1;
      log := log + [LogEntry(newIndex, currentTerm, command)];
      r := Some(newIndex);
    }

    method HandleAppend(f: Frame) returns (term: nat, success: bool)
      requires Indexed(log)
      modifies this
      ensures (View(), success) == HandleAppendEntries(old(View()), f) && term == currentTerm
    {
      if f.term < currentTerm {
        return currentTerm, false;
      }
      currentTerm, role, leaderId, votedFor := f.term, Follower, Some(f.leaderId), None;
      if f.prevLogIndex > 0 {
        if f.prevLogIndex > LastIndex(log) {
          return currentTerm, false;
        }
        if log[f.prevLogIndex].term != f.prevLogTerm {
          return currentTerm, false;
        }
      }
      for i := 0 to |f.entries|
        invariant StoreAll(log, f.entries[i..]) == StoreAll(old(log), f.entries)
        invariant currentTerm == f.term && role == Follower && leaderId == Some(f.leaderId)
        invariant votedFor == None
        invariant commitIndex == old(commitIndex) && lastApplied == old(lastApplied)
      {
        var entry := f.entries[i];
        var idx := entry.index;
        assert f.entries[i..][1..] == f.entries[i + 1..];
        if idx < |log| {
          if log[idx].term != entry.term {
            log := log[..idx];
            log := log + [entry];
          }
        } else {
          log := log + [entry];
        }
      }
      if f.leaderCommit > commitIndex {
        commitIndex := if f.leaderCommit < LastIndex(log) then f.leaderCommit else LastIndex(log);
      }
      return currentTerm, true;
    }

    method DrainUnapplied() returns (commands: seq<Command>)
      modifies this
      ensures (View(), commands) == Drain(old(View()))
    {
      commands := [];
      while lastApplied < commitIndex
        invariant View() == old(View()).(lastApplied := lastApplied)
        invariant old(lastApplied) <= lastApplied <= commitIndex || lastApplied == old(lastApplied)
        invariant commands + Unapplied(log, lastApplied, commitIndex)
               == Unapplied(log, old(lastApplied), commitIndex)
      {
        DrainStep(log, lastApplied, commitIndex, commands);
        hide Unapplied;
        lastApplied := lastApplied + 1;
        if lastApplied < |log| {
          commands := commands + [log[lastApplied].command];
        }
      }
      assert commands + [] == commands;
    }
  }

  lemma DrainStep(log: Entries, applied: nat, commit: nat, before: seq<Command>)
    requires applied < commit
    ensures before + Unapplied(log, applied, commit)
         == (if applied + 1 < |log| then before + [log[applied + 1].command] else before)
            + Unapplied(log, applied + 1, commit)
  {
  }

  // Runs: leader appends, received frames, drains, and role or commit changes from outside,
  // in any interleaving.

  datatype Op =
    | AppendOp(command: Command)
    | HandleOp(frame: Frame)
    | DrainOp
    | BecomeOp(role: Role, term: nat)
    | CommitOp(upTo: nat)

  /**
   * What the claims assume of an operation: a frame's entries are contiguous and agree with
   * the log up to the commit index; a leader commits only entries it has.
   */
  predicate Allowed(s: State, op: Op) {
    match op
    case HandleOp(f) =>
      Contiguous(f.entries, f.prevLogIndex) && AgreesUpTo(s.log, f.entries, s.commitIndex)
    case CommitOp(n) => s.commitIndex <= n <= LastIndex(s.log)
    case _ => true
  }

  function Exec(s: State, op: Op): (State, seq<Command>)
    requires Indexed(s.log)
  {
    match op
    case AppendOp(command) =>
      ((match Append(s, command) case None => s case Some(t) => t), [])
    case HandleOp(f) => (HandleAppendEntries(s, f).0, [])
    case DrainOp => Drain(s)
    case BecomeOp(role, term) => (s.(role := role, currentTerm := term), [])
    case CommitOp(n) => (s.(commitIndex := n), [])
  }

  function Commands(log: Entries): seq<Command> {
    if log == [] then [] else Commands(log[..|log| - 1]) + [log[|log| - 1].command]
  }

  /** The state after a run and everything drained in it, in order. */
  datatype Outcome = Outcome(state: State, applied: seq<Command>)

  ghost predicate Good(o: Outcome) {
    var s := o.state;
    && Indexed(s.log) && s.lastApplied <= s.commitIndex <= LastIndex(s.log)
    && o.applied == Commands(s.log[1..s.lastApplied + 1])
  }

  /** One state extends another: commits only grow and committed entries never change. */
  ghost predicate Extends(later: State, earlier: State) {
    && earlier.commitIndex <= later.commitIndex && earlier.commitIndex < |earlier.log|
    && earlier.log[..earlier.commitIndex + 1] <= later.log
  }

  function Then(o: Outcome, op: Op): Outcome
    requires Indexed(o.state.log)
  {
    var (s, drained) := Exec(o.state, op);
    Outcome(s, o.applied + drained)
  }

  /** A run of allowed operations from the initial state. */
  ghost predicate IsRun(run: seq<Outcome>, ops: seq<Op>) {
    && |run| == |ops| + 1 && run[0] == Outcome(NEW_STATE, [])
    && forall i :: 0 <= i < |ops| ==>
         && Indexed(run[i].state.log) && Allowed(run[i].state, ops[i])
         && run[i + 1] == Then(run[i], ops[i])
  }

  lemma {:induction false} CommandsAppend(a: Entries, b: Entries)
    ensures Commands(a + b) == Commands(a) + Commands(b)
    decreases |b|
  {
    if b == [] {
      assert a + b == a;
    } else {
      assert (a + b)[..|a + b| - 1] == a + b[..|b| - 1];
      CommandsAppend(a, b[..|b| - 1]);
    }
  }

  lemma {:induction false} UnappliedIsSlice(log: Entries, applied: nat, commit: nat)
    requires applied <= commit < |log|
    ensures Unapplied(log, applied, commit) == Commands(log[applied + 1..commit + 1])
    decreases commit - applied
  {
    if applied < commit {
      UnappliedIsSlice(log, applied + 1, commit);
      CommandsAppend([log[applied + 1]], log[applied + 2..commit + 1]);
      assert log[applied + 1..commit + 1] == [log[applied + 1]] + log[applied + 2..commit + 1];
    }
  }

  /**
   * Accepting contiguous entries leaves the committed prefix as it is exactly when they
   * agree with the log up to the commit index.
   */
  lemma CommittedPrefixKeptIff(s: State, f: Frame)
    requires Indexed(s.log) && s.commitIndex < |s.log| && Contiguous(f.entries, f.prevLogIndex)
    requires HandleAppendEntries(s, f).1
    ensures s.log[..s.commitIndex + 1] <= HandleAppendEntries(s, f).0.log
       <==> AgreesUpTo(s.log, f.entries, s.commitIndex)
    ensures Indexed(HandleAppendEntries(s, f).0.log)
  {
    StoreAllMerges(s.log, f.prevLogIndex, f.entries);
    MergeKeepsPrefixIff(s.log, f.prevLogIndex, f.entries, s.commitIndex);
    MergedIndexed(s.log, f.prevLogIndex, f.entries);
  }

  /**
   * What a frame does: whether it is accepted, by whom the node is led afterwards, what its log
   * then holds, and how far it is committed.
   */
  lemma FrameOutcome(s: State, f: Frame)
    requires Indexed(s.log) && s.log != [] && Contiguous(f.entries, f.prevLogIndex)
    ensures var (after, accepted) := HandleAppendEntries(s, f);
      && (accepted <==>
            && f.term >= s.currentTerm
            && (|| f.prevLogIndex == 0
                || (f.prevLogIndex < |s.log| && s.log[f.prevLogIndex].term == f.prevLogTerm)))
      && (f.term < s.currentTerm ==> after == s)
      && (f.term >= s.currentTerm ==>
            && after.currentTerm == f.term && after.role == Follower && after.votedFor == None
            && after.leaderId == Some(f.leaderId))
      && (!accepted ==> after.log == s.log && after.commitIndex == s.commitIndex)
      && (accepted ==>
            && s.log[..f.prevLogIndex + 1] <= after.log
            && HoldsAll(after.log, s.log, f.prevLogIndex, f.entries)
            && CommitMoved(s.commitIndex, after.commitIndex, f.leaderCommit, |after.log| - 1))
  {
    if f.prevLogIndex < |s.log| {
      StoreAllMerges(s.log, f.prevLogIndex, f.entries);
      MergedHoldsAll(s.log, f.prevLogIndex, f.entries);
      MergedKeepsFront(s.log, f.prevLogIndex, f.entries);
      MergedIndexed(s.log, f.prevLogIndex, f.entries);
    }
    hide StoreAll, Merged, HoldsAll;
  }

  /** The frame that brings one entry to a follower with nothing but the sentinel. */
  function OneEntry(term: u64, c: Command, commit: nat): Frame {
    AppendEntries(term, term, 0, 0, [LogEntry(1, term, c)], commit)
  }

  /**
   * A commit index can fall: a frame of a later term that cuts the log below it, and tells of a
   * higher one, takes it down to the end of the log, below what was applied.
   */
  lemma CommitCanFall(c: Command)
    ensures var log := [NEW_STATE.log[0], LogEntry(1, 1, c), LogEntry(2, 1, c)];
      var s := State(1, None, log, 2, 2, Follower, Some(1));
      var (after, accepted) := HandleAppendEntries(s, OneEntry(2, c, 3));
      && accepted && after.commitIndex == 1 && after.lastApplied == 2
      && after.log == [NEW_STATE.log[0], LogEntry(1, 2, c)]
  {
    var log, e := [NEW_STATE.log[0], LogEntry(1, 1, c), LogEntry(2, 1, c)], LogEntry(1, 2, c);
    assert Store(log, e) == [NEW_STATE.log[0], e] by { assert log[..1] == [NEW_STATE.log[0]]; }
    assert [e][1..] == [];
    assert StoreAll(log, [e]) == StoreAll(Store(log, e), []);
    hide Store;
  }

  /** A follower that has received, committed and applied one entry of term 1. */
  function Applied(c: Command): State {
    State(1, None, [NEW_STATE.log[0], LogEntry(1, 1, c)], 1, 1, Follower, Some(1))
  }

  lemma EntryArrives(c: Command)
    ensures Allowed(NEW_STATE, HandleOp(OneEntry(1, c, 1)))
    ensures Then(Outcome(NEW_STATE, []), HandleOp(OneEntry(1, c, 1)))
         == Outcome(Applied(c).(lastApplied := 0), [])
  {
    var e := LogEntry(1, 1, c);
    assert StoreAll(NEW_STATE.log, [e]) == [NEW_STATE.log[0], e] by { assert [e][1..] == []; }
    hide StoreAll;
  }

  lemma EntryIsApplied(c: Command)
    ensures Then(Outcome(Applied(c).(lastApplied := 0), []), DrainOp) == Outcome(Applied(c), [c])
  {
    var log := Applied(c).log;
    assert Unapplied(log, 1, 1) == [];
    assert Unapplied(log, 0, 1) == [c];
    hide Unapplied;
  }

  lemma EntryIsReplaced(c: Command, other: Command)
    ensures var second := OneEntry(2, other, 1);
      && Indexed(Applied(c).log) && Contiguous(second.entries, 0)
      && !AgreesUpTo(Applied(c).log, second.entries, 1)
      && HandleAppendEntries(Applied(c), second) ==
         (State(2, None, [NEW_STATE.log[0], LogEntry(1, 2, other)], 1, 1, Follower, Some(2)), true)
  {
    var log, f := Applied(c).log, LogEntry(1, 2, other);
    assert StoreAll(log, [f]) == [NEW_STATE.log[0], f] by {
      assert [f][1..] == [] && log[..1] == [NEW_STATE.log[0]];
    }
    hide StoreAll;
    assert ([f])[0].index == 1 && log[1].term == 1;
  }

  /**
   * The condition can fail on an accepted frame: a run commits and applies an entry, and a
   * frame of the next term replaces it.
   */
  lemma AppliedCanBeReplaced(c: Command, other: Command)
    ensures IsRun([Outcome(NEW_STATE, []), Outcome(Applied(c).(lastApplied := 0), []), Outcome(Applied(c), [c])],
                  [HandleOp(OneEntry(1, c, 1)), DrainOp])
    ensures var second := OneEntry(2, other, 1);
      && Indexed(Applied(c).log) && Contiguous(second.entries, 0)
      && !AgreesUpTo(Applied(c).log, second.entries, 1)
      && HandleAppendEntries(Applied(c), second) ==
         (State(2, None, [NEW_STATE.log[0], LogEntry(1, 2, other)], 1, 1, Follower, Some(2)), true)
  {
    hide Then, HandleAppendEntries, AgreesUpTo, OneEntry;
    EntryArrives(c);
    EntryIsApplied(c);
    EntryIsReplaced(c, other);
  }

  lemma HandleIsGood(o: Outcome, f: Frame)
    requires Good(o) && Allowed(o.state, HandleOp(f))
    ensures Good(Then(o, HandleOp(f))) && Extends(Then(o, HandleOp(f)).state, o.state)
  {
    hide Commands, StoreAll, AgreesUpTo, Contiguous;
    var s := o.state;
    var (t, accepted) := HandleAppendEntries(s, f);
    assert Then(o, HandleOp(f)) == Outcome(t, o.applied);
    if accepted {
      CommittedPrefixKeptIff(s, f);
      SamePrefix(s.log, t.log, s.commitIndex + 1, s.lastApplied + 1);
    }
  }

  lemma SamePrefix(a: Entries, b: Entries, n: nat, k: nat)
    requires 1 <= k <= n <= |a| && a[..n] <= b
    ensures a[1..k] == b[1..k]
  {
    assert a[1..k] == a[..n][1..k] && b[1..k] == b[..n][1..k];
  }

  lemma Spans(log: Entries, i: nat, j: nat)
    requires 1 <= i <= j <= |log|
    ensures log[1..i] + log[i..j] == log[1..j]
  {
  }

  lemma DrainIsGood(o: Outcome)
    requires Good(o)
    ensures Good(Then(o, DrainOp)) && Extends(Then(o, DrainOp).state, o.state)
  {
    hide Unapplied, Commands;
    var s := o.state;
    UnappliedIsSlice(s.log, s.lastApplied, s.commitIndex);
    CommandsAppend(s.log[1..s.lastApplied + 1], s.log[s.lastApplied + 1..s.commitIndex + 1]);
    Spans(s.log, s.lastApplied + 1, s.commitIndex + 1);
    assert Then(o, DrainOp).state.log == s.log;
  }

  lemma StepIsGood(o: Outcome, op: Op)
    requires Good(o) && Allowed(o.state, op)
    ensures Good(Then(o, op)) && Extends(Then(o, op).state, o.state)
  {
    hide Commands, HandleAppendEntries, Unapplied;
    match op
    case HandleOp(f) => HandleIsGood(o, f);
    case DrainOp => DrainIsGood(o);
    case AppendOp(command) =>
      var s, t := o.state, Then(o, op).state;
      assert t.log[1..s.lastApplied + 1] == s.log[1..s.lastApplied + 1];
    case BecomeOp(_, _) =>
    case CommitOp(_) =>
  }

  lemma RunStep(run: seq<Outcome>, ops: seq<Op>, i: nat)
    requires IsRun(run, ops) && i + 1 < |run|
    ensures i < |ops| && Indexed(run[i].state.log) && Allowed(run[i].state, ops[i])
    ensures run[i + 1] == Then(run[i], ops[i])
  {
    hide Then, Allowed, Indexed;
  }

  /**
   * Committed metadata is applied exactly once, in order: at every point of every run,
   * lastApplied <= commitIndex <= lastIndex, and everything drained so far is the commands
   * of log[1..=lastApplied].
   */
  lemma {:induction false} AppliedOnceInOrder(run: seq<Outcome>, ops: seq<Op>, i: nat)
    requires IsRun(run, ops) && i < |run|
    ensures Good(run[i])
  {
    if i == 0 {
      hide Then, Allowed;
    } else {
      hide *;
      AppliedOnceInOrder(run, ops, i - 1);
      RunStep(run, ops, i - 1);
      StepIsGood(run[i - 1], ops[i - 1]);
    }
  }

  /** Between any two points of a run, commits only grow and what is committed never changes. */
  lemma {:induction false} CommittedNeverChanges(run: seq<Outcome>, ops: seq<Op>, i: nat, j: nat)
    requires IsRun(run, ops) && i <= j < |run|
    ensures Extends(run[j].state, run[i].state)
    decreases j - i
  {
    hide *;
    AppliedOnceInOrder(run, ops, i);
    if i == j {
      ExtendsItself(run[i]);
    } else {
      CommittedNeverChanges(run, ops, i, j - 1);
      AppliedOnceInOrder(run, ops, j - 1);
      RunStep(run, ops, j - 1);
      StepIsGood(run[j - 1], ops[j - 1]);
      ExtendsTransitive(run[i].state, run[j - 1].state, run[j].state);
    }
  }

  lemma ExtendsItself(o: Outcome)
    requires Good(o)
    ensures Extends(o.state, o.state)
  {
    hide Commands;
  }

  lemma ExtendsTransitive(a: State, b: State, c: State)
    requires Extends(b, a) && Extends(c, b)
    ensures Extends(c, a)
  {
    assert a.log[..a.commitIndex + 1] == b.log[..b.commitIndex + 1][..a.commitIndex + 1];
  }

  /** The highest commit index that a leader has told, or that was set from outside. */
  function Promised(ops: seq<Op>): nat {
    if ops == [] then 0
    else
      var before := Promised(ops[..|ops| - 1]);
      var told := match ops[|ops| - 1]
        case HandleOp(f) => f.leaderCommit
        case CommitOp(n) => n
        case _ => 0;
      if told > before then told else before
  }

  lemma {:induction false} PromisedGrows(ops: seq<Op>, i: nat)
    requires i < |ops|
    ensures Promised(ops[..i]) <= Promised(ops[..i + 1])
    ensures ops[i].HandleOp? ==> ops[i].frame.leaderCommit <= Promised(ops[..i + 1])
    ensures ops[i].CommitOp? ==> ops[i].upTo <= Promised(ops[..i + 1])
  {
    assert ops[..i + 1][..i] == ops[..i];
  }

  lemma StepIsPromised(o: Outcome, op: Op, promised: nat)
    requires Good(o) && Allowed(o.state, op) && o.state.commitIndex <= promised
    requires op.HandleOp? ==> op.frame.leaderCommit <= promised
    requires op.CommitOp? ==> op.upTo <= promised
    ensures Then(o, op).state.commitIndex <= promised
  {
    if op.HandleOp? { FrameOutcome(o.state, op.frame); }
    hide HandleAppendEntries, Commands, HoldsAll, Unapplied;
  }

  lemma {:induction false} CommandsLength(log: Entries)
    ensures |Commands(log)| == |log|
  {
    if log != [] { CommandsLength(log[..|log| - 1]); }
  }

  lemma GoodCounts(o: Outcome)
    requires Good(o)
    ensures |o.applied| == o.state.lastApplied <= o.state.commitIndex
  {
    CommandsLength(o.state.log[1..o.state.lastApplied + 1]);
    hide Commands, Indexed;
  }

  lemma StartPromises(run: seq<Outcome>, ops: seq<Op>)
    requires IsRun(run, ops) && |run| > 0
    ensures run[0].state.commitIndex == 0
  {
    hide Then, Allowed;
  }

  lemma {:induction false} CommitIsPromised(run: seq<Outcome>, ops: seq<Op>, i: nat)
    requires IsRun(run, ops) && i < |run|
    ensures i <= |ops| && run[i].state.commitIndex <= Promised(ops[..i])
  {
    if i == 0 {
      StartPromises(run, ops);
    } else {
      hide *;
      CommitIsPromised(run, ops, i - 1);
      AppliedOnceInOrder(run, ops, i - 1);
      RunStep(run, ops, i - 1);
      PromisedGrows(ops, i - 1);
      StepIsPromised(run[i - 1], ops[i - 1], Promised(ops[..i]));
    }
  }

  /** In every run, nothing is committed or applied beyond what was promised. */
  lemma AppliedIsPromised(run: seq<Outcome>, ops: seq<Op>, i: nat)
    requires IsRun(run, ops) && i < |run|
    ensures |run[i].applied| == run[i].state.lastApplied <= run[i].state.commitIndex <= Promised(ops[..i])
  {
    hide *;
    CommitIsPromised(run, ops, i);
    AppliedOnceInOrder(run, ops, i);
    GoodCounts(run[i]);
  }

  /** A drain catches up: everything committed has then been applied. */
  lemma DrainCatchesUp(run: seq<Outcome>, ops: seq<Op>, i: nat)
    requires IsRun(run, ops) && i + 1 < |run| && ops[i] == DrainOp
    ensures var before, s := run[i].state, run[i + 1].state;
      && s.commitIndex == s.lastApplied == before.commitIndex < |s.log| && s.log == before.log
      && run[i + 1].applied == Commands(s.log[1..before.commitIndex + 1])
  {
    AppliedOnceInOrder(run, ops, i);
    AppliedOnceInOrder(run, ops, i + 1);
    RunStep(run, ops, i);
    hide IsRun, Commands, Unapplied;
  }

  /** A leader adds a command behind its log, in its term; others refuse it. */
  lemma OnlyLeadersAppend(s: State, command: Command)
    requires Indexed(s.log) && s.log != []
    ensures Append(s, command) ==
      if s.role == Leader then Some(s.(log := s.log + [LogEntry(|s.log|, s.currentTerm, command)])) else None
  {
  }
}
