// The replicated log that both kinds of Raft group share: its entries, the AppendEntries
// merge loop, and what that loop amounts to on contiguous entries.
module ReplicatedLog {

  datatype LogEntry<+C> = LogEntry(index: nat, term: nat, command: C)

  datatype Role = Follower | Candidate | Leader

  type Log<+C> = seq<LogEntry<C>>

  /** Every entry sits at its own index, from a sentinel at 0. */
  predicate Indexed<C>(log: Log<C>) {
    log != [] && forall i :: 0 <= i < |log| ==> log[i].index == i
  }

  function LastIndex<C>(log: Log<C>): nat {
    if log == [] then 0 else log[|log| - 1].index
  }

  function LastTerm<C>(log: Log<C>): nat {
    if log == [] then 0 else log[|log| - 1].term
  }

  /** The entries a leader sends after index `prev`. */
  predicate Contiguous<C>(entries: Log<C>, prev: nat) {
    forall k :: 0 <= k < |entries| ==> entries[k].index == prev + 1 + k
  }

  predicate PrevMatches<C>(log: Log<C>, prev: nat, prevTerm: nat)
    requires Indexed(log)
  {
    prev > 0 ==> prev <= LastIndex(log) && log[prev].term == prevTerm
  }

  /** One round of the merge loop: overwrite on a conflict, skip a match, else append. */
  function Store<C>(log: Log<C>, e: LogEntry<C>): Log<C> {
    if e.index < |log| then
      if log[e.index].term != e.term then log[..e.index] + [e] else log
    else log + [e]
  }

  function StoreAll<C>(log: Log<C>, entries: Log<C>): Log<C>
    decreases |entries|
  {
    if entries == [] then log else StoreAll(Store(log, entries[0]), entries[1..])
  }

  /** How many of the entries after `prev` the log already has. */
  function Agreeing<C>(log: Log<C>, prev: nat, entries: Log<C>): (n: nat)
    ensures n <= |entries|
    ensures n > 0 ==> prev + n < |log| && log[prev + n].term == entries[n - 1].term
    ensures n < |entries| && prev + 1 + n < |log| ==> log[prev + 1 + n].term != entries[n].term
    decreases |entries|
  {
    if entries == [] || prev + 1 >= |log| || log[prev + 1].term != entries[0].term then 0
    else 1 + Agreeing(log, prev + 1, entries[1..])
  }

  /** The log is kept as long as the entries agree with it; from there on they replace it. */
  function Merged<C>(log: Log<C>, prev: nat, entries: Log<C>): Log<C>
    requires prev < |log|
  {
    var n := Agreeing(log, prev, entries);
    if n == |entries| then log else log[..prev + 1 + n] + entries[n..]
  }

  lemma {:induction false} StoreAtEnd<C>(log: Log<C>, entries: Log<C>)
    requires log != [] && Contiguous(entries, |log| - 1)
    ensures StoreAll(log, entries) == log + entries
    decreases |entries|
  {
    if entries == [] {
      assert log + entries == log;
    } else {
      ContiguousRest(entries, |log| - 1);
      StoreAtEnd(log + [entries[0]], entries[1..]);
      HeadAndRest(log, entries);
    }
  }

  lemma StoreFromConflict<C>(log: Log<C>, prev: nat, entries: Log<C>)
    requires prev < |log| && Contiguous(entries, prev) && entries != []
    requires prev + 1 < |log| ==> log[prev + 1].term != entries[0].term
    ensures StoreAll(log, entries) == log[..prev + 1] + entries
  {
    var kept := log[..prev + 1];
    assert Store(log, entries[0]) == kept + [entries[0]];
    ContiguousRest(entries, prev);
    StoreAtEnd(kept + [entries[0]], entries[1..]);
    HeadAndRest(kept, entries);
  }

  lemma ContiguousRest<C>(entries: Log<C>, prev: nat)
    requires Contiguous(entries, prev) && entries != []
    ensures entries[0].index == prev + 1 && Contiguous(entries[1..], prev + 1)
  {
  }

  lemma HeadAndRest<C>(kept: Log<C>, entries: Log<C>)
    requires entries != []
    ensures kept + [entries[0]] + entries[1..] == kept + entries
  {
  }

  /** An entry the log has changes nothing. */
  lemma EntrySkipped<C>(log: Log<C>, prev: nat, entries: Log<C>)
    requires prev + 1 < |log| && entries != [] && entries[0].index == prev + 1
    requires log[prev + 1].term == entries[0].term
    ensures StoreAll(log, entries) == StoreAll(log, entries[1..])
    ensures Merged(log, prev, entries) == Merged(log, prev + 1, entries[1..])
  {
    hide Store;
    StoreSame(log, entries[0]);
    assert StoreAll(log, entries) == StoreAll(log, entries[1..]);
    hide StoreAll;
    var rest := entries[1..];
    var n := Agreeing(log, prev + 1, rest);
    assert Agreeing(log, prev, entries) == 1 + n;
    hide Agreeing;
    assert rest[n..] == entries[1 + n..];
  }

  lemma StoreSame<C>(log: Log<C>, e: LogEntry<C>)
    requires e.index < |log| && log[e.index].term == e.term
    ensures Store(log, e) == log
  {
  }

  /** The loop computes the merge. */
  lemma {:induction false} StoreAllMerges<C>(log: Log<C>, prev: nat, entries: Log<C>)
    requires prev < |log| && Contiguous(entries, prev)
    ensures StoreAll(log, entries) == Merged(log, prev, entries)
    decreases |entries|
  {
    if entries == [] {
      hide Contiguous;
    } else if prev + 1 < |log| && log[prev + 1].term == entries[0].term {
      hide StoreAll, Merged, Contiguous;
      ContiguousRest(entries, prev);
      EntrySkipped(log, prev, entries);
      StoreAllMerges(log, prev + 1, entries[1..]);
    } else {
      StoreFromConflict(log, prev, entries);
      hide StoreAll, Contiguous;
      assert entries[0..] == entries;
    }
  }

  lemma MergedIndexed<C>(log: Log<C>, prev: nat, entries: Log<C>)
    requires Indexed(log) && prev < |log| && Contiguous(entries, prev)
    ensures Indexed(Merged(log, prev, entries))
    ensures |Merged(log, prev, entries)| >= prev + 1 + |entries|
  {
  }

  /** Entries at or below `upTo` that the log already has: nothing up to there is rewritten. */
  predicate AgreesUpTo<C>(log: Log<C>, entries: Log<C>, upTo: nat) {
    forall k :: 0 <= k < |entries| && entries[k].index <= upTo && entries[k].index < |log| ==>
      log[entries[k].index].term == entries[k].term
  }

  /** The merge keeps a prefix exactly when the entries agree with it. */
  lemma MergeKeepsPrefixIff<C>(log: Log<C>, prev: nat, entries: Log<C>, upTo: nat)
    requires Indexed(log) && prev < |log| && Contiguous(entries, prev) && upTo < |log|
    ensures log[..upTo + 1] <= Merged(log, prev, entries) <==> AgreesUpTo(log, entries, upTo)
  {
    var n := Agreeing(log, prev, entries);
    AgreeingAll(log, prev, entries);
    var merged := Merged(log, prev, entries);
    if n < |entries| {
      var i := prev + 1 + n;
      assert merged[i] == entries[n] && entries[n].index == i;
      if i <= upTo {
        assert log[..upTo + 1][i] == log[i];
        assert !(log[..upTo + 1] <= merged);
        assert !AgreesUpTo(log, entries, upTo);
      } else {
        assert merged[..upTo + 1] == log[..upTo + 1];
        assert log[..upTo + 1] <= merged;
        assert AgreesUpTo(log, entries, upTo);
      }
    }
  }

  lemma {:induction false} AgreeingAll<C>(log: Log<C>, prev: nat, entries: Log<C>)
    ensures var n := Agreeing(log, prev, entries);
      forall k :: 0 <= k < n ==> prev + 1 + k < |log| && log[prev + 1 + k].term == entries[k].term
    decreases |entries|
  {
    var n := Agreeing(log, prev, entries);
    if n > 0 {
      AgreeingAll(log, prev + 1, entries[1..]);
      forall k | 0 <= k < n
        ensures prev + 1 + k < |log| && log[prev + 1 + k].term == entries[k].term
      {
        if k > 0 { assert entries[k] == entries[1..][k - 1]; }
      }
    }
  }

  /** Every entry sent after `prev` is held: itself, or the one the log had of the same term. */
  ghost predicate HoldsAll<C>(log: Log<C>, before: Log<C>, prev: nat, entries: Log<C>) {
    forall k :: 0 <= k < |entries| ==> Holds(log, before, prev + 1 + k, entries[k])
  }

  ghost predicate Holds<C>(log: Log<C>, before: Log<C>, i: nat, e: LogEntry<C>) {
    && i < |log| && log[i].term == e.term
    && (log[i] == e || (i < |before| && log[i] == before[i]))
  }

  lemma MergedAt<C>(log: Log<C>, prev: nat, entries: Log<C>, k: nat)
    requires prev < |log| && k < |entries|
    ensures var n, merged := Agreeing(log, prev, entries), Merged(log, prev, entries);
      && (k >= n ==> prev + 1 + k < |merged| && merged[prev + 1 + k] == entries[k])
      && (k < n ==> prev + 1 + k < |log| && prev + 1 + k < |merged| && merged[prev + 1 + k] == log[prev + 1 + k])
  {
    AgreeingAll(log, prev, entries);
    hide Agreeing;
    var n := Agreeing(log, prev, entries);
    if k >= n { assert entries[n..][k - n] == entries[k]; }
  }

  lemma MergedHoldsAll<C>(log: Log<C>, prev: nat, entries: Log<C>)
    requires prev < |log|
    ensures HoldsAll(Merged(log, prev, entries), log, prev, entries)
  {
    forall k | 0 <= k < |entries|
      ensures Holds(Merged(log, prev, entries), log, prev + 1 + k, entries[k])
    {
      MergedHolds(log, prev, entries, k);
    }
  }

  lemma MergedHolds<C>(log: Log<C>, prev: nat, entries: Log<C>, k: nat)
    requires prev < |log| && k < |entries|
    ensures Holds(Merged(log, prev, entries), log, prev + 1 + k, entries[k])
  {
    hide Agreeing, Merged;
    AgreeingAll(log, prev, entries);
    MergedAt(log, prev, entries, k);
  }

  lemma MergedKeepsFront<C>(log: Log<C>, prev: nat, entries: Log<C>)
    requires prev < |log|
    ensures log[..prev + 1] <= Merged(log, prev, entries)
  {
    AgreeingAll(log, prev, entries);
    hide Agreeing;
    var n := Agreeing(log, prev, entries);
    if n < |entries| { assert log[..prev + 1 + n][..prev + 1] == log[..prev + 1]; }
  }

  /**
   * How a commit index moves: not at all unless a higher one was told, else to what was told
   * or to the end of the log, whichever comes first.
   */
  predicate CommitMoved(was: nat, now: nat, told: nat, last: nat) {
    && (told <= was ==> now == was)
    && (told > was ==> now <= told && now <= last && (now == told || now == last))
  }

  /** So it advances, as far as it can, exactly unless the log ends below what was committed. */
  lemma CommitFallsIff(was: nat, now: nat, told: nat, last: nat)
    requires CommitMoved(was, now, told, last)
    ensures now < was <==> last < was < told
    ensures was <= last ==> now >= was && (now >= told || now == last)
  {
  }
}
