// The delay queue: messages held until they are due, released in order of due time.
module DelayQueues {
  import opened Bytes
  import opened Messages

  datatype Delayed = Delayed(deliverAt: int, id: nat, queue: Octets, message: Message)

  const MAX_ID: int := TWO_64 - 1

  /** The order of the keys (due time, id). */
  predicate Below(due: int, id: int, otherDue: int, otherId: int) {
    due < otherDue || (due == otherDue && id < otherId)
  }

  predicate Earlier(a: Delayed, b: Delayed) {
    Below(a.deliverAt, a.id, b.deliverAt, b.id)
  }

  predicate SameKey(a: Delayed, b: Delayed) {
    a.deliverAt == b.deliverAt && a.id == b.id
  }

  /** What is held, in key order, and the next id. */
  datatype State = State(held: seq<Delayed>, nextId: nat)

  /** Inserting under a key replaces what the key held. */
  function Put(held: seq<Delayed>, d: Delayed): seq<Delayed> {
    if held == [] || Earlier(d, held[0]) then [d] + held
    else if SameKey(d, held[0]) then [d] + held[1..]
    else [held[0]] + Put(held[1..], d)
  }

  /** How many of the held messages lie below the split key of a drain. */
  function ReadyCount(held: seq<Delayed>, now: int): (n: nat)
    ensures n <= |held|
    ensures forall i :: 0 <= i < n ==> Ready(held[i], now)
    ensures n < |held| ==> !Ready(held[n], now)
  {
    if held == [] || !Ready(held[0], now) then 0 else 1 + ReadyCount(held[1..], now)
  }

  predicate Ready(d: Delayed, now: int) {
    Below(d.deliverAt, d.id, now, MAX_ID)
  }

  predicate Sorted(s: seq<Delayed>) {
    forall i, j :: 0 <= i < j < |s| ==> Earlier(s[i], s[j])
  }

  function Scheduled(st: State, now: int, delay: nat, queue: Octets, message: Message): State {
    State(Put(st.held, Delayed(now + delay, st.nextId, queue, message)), st.nextId + 1)
  }

  function Drained(st: State, now: int): (State, seq<Delayed>) {
    var n := ReadyCount(st.held, now);
    (st.(held := st.held[n..]), st.held[..n])
  }

  class DelayQueue {
    var inner: seq<Delayed>
    var nextId: nat

    function View(): State
      reads this
    {
      State(inner, nextId)
    }

    constructor ()
      ensures View() == State([], 1)
    {
      inner, nextId := [], 1;
    }

    method Schedule(now: int, queue: Octets, message: Message, delay: nat)
      modifies this
      ensures View() == Scheduled(old(View()), now, delay, queue, message)
    {
      var deliverAt := now + delay;
      var id := nextId;
      nextId := nextId + 1;
      inner := Put(inner, Delayed(deliverAt, id, queue, message));
    }

    method DrainReady(now: int) returns (ready: seq<Delayed>)
      modifies this
      ensures (View(), ready) == Drained(old(View()), now)
    {
      var split := ReadyCount(inner, now);
      ready := inner[..split];
      inner := inner[split..];
    }
  }

  // Runs.

  datatype Op =
    | Schedule(now: int, delay: nat, queue: Octets, message: Message)
    | Drain(now: int)

  /** The state, everything scheduled so far, and everything released so far with its time. */
  datatype Trace = Trace(state: State, scheduled: seq<Delayed>, released: seq<Delayed>,
                         times: seq<int>)

  function Step(t: Trace, op: Op): Trace {
    match op
    case Schedule(now, delay, queue, message) =>
      t.(state := Scheduled(t.state, now, delay, queue, message),
         scheduled := t.scheduled + [Delayed(now + delay, t.state.nextId, queue, message)])
    case Drain(now) =>
      var (st, ready) := Drained(t.state, now);
      t.(state := st, released := t.released + ready, times := t.times + seq(|ready|, _ => now))
  }

  function Run(ops: seq<Op>): Trace {
    if ops == [] then Trace(State([], 1), [], [], [])
    else Step(Run(ops[..|ops| - 1]), ops[|ops| - 1])
  }

  predicate IdsAscend(s: seq<Delayed>, next: nat) {
    && (forall i :: 0 <= i < |s| ==> s[i].id < next)
    && (forall i, j :: 0 <= i < j < |s| ==> s[i].id < s[j].id)
  }

  /** What holds in every run, however the clock behaves. */
  ghost predicate Consistent(t: Trace) {
    && Sorted(t.state.held)
    && IdsAscend(t.scheduled, t.state.nextId)
    && multiset(t.released) + multiset(t.state.held) == multiset(t.scheduled)
    && |t.times| == |t.released|
    && (forall i :: 0 <= i < |t.released| ==> t.released[i].deliverAt <= t.times[i])
  }

  lemma SortedCons(x: Delayed, s: seq<Delayed>)
    ensures Sorted(s) && (forall y <- s :: Earlier(x, y)) ==> Sorted([x] + s)
    ensures Sorted([x] + s) ==> Sorted(s) && forall y <- s :: Earlier(x, y)
  {
    hide Earlier;
    var t := [x] + s;
    assert forall i :: 0 <= i < |s| ==> s[i] == t[i + 1];
    assert t[0] == x;
    forall y | y in s ensures Sorted(t) ==> Earlier(x, y) {
      var i :| 0 <= i < |s| && s[i] == y;
      assert t[i + 1] == y;
    }
  }

  lemma {:induction false} PutFresh(held: seq<Delayed>, d: Delayed)
    requires Sorted(held) && forall h <- held :: h.id < d.id
    ensures Sorted(Put(held, d)) && multiset(Put(held, d)) == multiset(held) + multiset{d}
  {
    assert Sorted([d]);
    hide Sorted;
    if held == [] {
    } else {
      var x, rest := held[0], held[1..];
      assert held == [x] + rest;
      SortedCons(x, rest);
      if Earlier(d, x) {
        SortedCons(d, held);
      } else {
        assert x in held;
        PutFresh(rest, d);
        SortedCons(x, Put(rest, d));
        forall y | y in Put(rest, d) ensures Earlier(x, y) {
          assert y in multiset(Put(rest, d));
        }
      }
    }
  }

  lemma HeldWasScheduled(t: Trace)
    requires Consistent(t)
    ensures forall d <- t.state.held :: d in t.scheduled && d.id < t.state.nextId
    ensures forall d <- t.released :: d in t.scheduled && d.id < t.state.nextId
  {
    forall d | d in t.state.held || d in t.released ensures d in t.scheduled {
      assert d in multiset(t.released) + multiset(t.state.held);
    }
  }

  lemma SplitSorted(s: seq<Delayed>, n: nat)
    requires Sorted(s) && n <= |s|
    ensures Sorted(s[..n]) && Sorted(s[n..])
    ensures forall a <- s[..n], b <- s[n..] :: Earlier(a, b)
    ensures multiset(s) == multiset(s[..n]) + multiset(s[n..])
  {
    assert s == s[..n] + s[n..];
    hide Earlier;
  }

  lemma ScheduleKeepsConsistent(t: Trace, op: Op)
    requires Consistent(t) && op.Schedule?
    ensures Consistent(Step(t, op))
  {
    var d := Delayed(op.now + op.delay, t.state.nextId, op.queue, op.message);
    HeldWasScheduled(t);
    hide Sorted, Put;
    PutFresh(t.state.held, d);
    IdsAscendNext(t.scheduled, d);
    OneMore(t.released, t.state.held, Put(t.state.held, d), t.scheduled, d);
    assert Step(t, op) == t.(state := State(Put(t.state.held, d), t.state.nextId + 1),
                             scheduled := t.scheduled + [d]);
    hide IdsAscend, Step, Scheduled, Below, Earlier;
  }

  lemma IdsAscendNext(s: seq<Delayed>, d: Delayed)
    requires IdsAscend(s, d.id)
    ensures IdsAscend(s + [d], d.id + 1)
  {
  }

  lemma OneMore(
    released: seq<Delayed>, held: seq<Delayed>, next: seq<Delayed>, all: seq<Delayed>, d: Delayed)
    requires multiset(released) + multiset(held) == multiset(all)
    requires multiset(next) == multiset(held) + multiset{d}
    ensures multiset(released) + multiset(next) == multiset(all + [d])
  {
  }

  lemma StepKeepsConsistent(t: Trace, op: Op)
    requires Consistent(t)
    ensures Consistent(Step(t, op))
  {
    match op
    case Schedule(now, delay, queue, message) =>
      ScheduleKeepsConsistent(t, op);
    case Drain(now) =>
      DrainKeepsConsistent(t, now);
  }

  lemma DrainKeepsConsistent(t: Trace, now: int)
    requires Consistent(t)
    ensures Consistent(Step(t, Drain(now)))
  {
    var n := ReadyCount(t.state.held, now);
    SplitSorted(t.state.held, n);
    hide Sorted;
  }

  /**
   * Every message scheduled is either still held or released, released at most once, and
   * never before it is due.
   */
  lemma {:induction false} NothingLostNothingEarly(ops: seq<Op>)
    ensures Consistent(Run(ops))
  {
    if ops != [] {
      NothingLostNothingEarly(ops[..|ops| - 1]);
      StepKeepsConsistent(Run(ops[..|ops| - 1]), ops[|ops| - 1]);
    }
  }

  /**
   * A drain leaves exactly the messages not yet due. Only an id of 2^64 - 1, due at the very
   * instant of the drain, would stay although due.
   */
  lemma DrainReleasesEverythingDue(ops: seq<Op>, now: int, d: Delayed)
    requires d in Run(ops).state.held
    ensures var (st, ready) := Drained(Run(ops).state, now);
      && (d in ready <==> d !in st.held)
      && (d.id < 0xFFFF_FFFF_FFFF_FFFF ==> (d in ready <==> d.deliverAt <= now))
      && (d in ready <==> d.deliverAt < now || (d.deliverAt == now && d.id < 0xFFFF_FFFF_FFFF_FFFF))
  {
    NothingLostNothingEarly(ops);
    SplitAtReady(Run(ops).state.held, now, d);
  }

  lemma InOnePart(s: seq<Delayed>, n: nat, d: Delayed)
    requires n <= |s| && d in s
    ensures d in s[..n] || d in s[n..]
    ensures d in s[..n] ==> exists i :: 0 <= i < n && s[i] == d
    ensures d in s[n..] ==> exists i :: n <= i < |s| && s[i] == d
  {
    var i :| 0 <= i < |s| && s[i] == d;
    assert i < n ==> s[..n][i] == d;
    assert i >= n ==> s[n..][i - n] == d;
  }

  lemma SplitAtReady(held: seq<Delayed>, now: int, d: Delayed)
    requires Sorted(held) && d in held
    ensures var n := ReadyCount(held, now);
      && (d in held[..n] <==> Ready(d, now)) && (d in held[n..] <==> !Ready(d, now))
  {
    var n := ReadyCount(held, now);
    forall i | n <= i < |held| ensures !Ready(held[i], now) {
      assert i > n ==> Earlier(held[n], held[i]);
    }
    hide Ready, ReadyCount, Sorted;
    InOnePart(held, n, d);
  }

  predicate ClockAdvances(ops: seq<Op>) {
    forall i, j :: 0 <= i < j < |ops| ==> ops[i].now <= ops[j].now
  }

  /** Everything released lies before everything held, and before whatever comes later. */
  ghost predicate Ordered(t: Trace, clock: int) {
    && Sorted(t.released)
    && (forall r <- t.released :: r.deliverAt <= clock && r.id < t.state.nextId)
    && (forall r <- t.released, h <- t.state.held :: Earlier(r, h))
  }

  lemma ScheduleKeepsOrder(t: Trace, d: Delayed, clock: int)
    requires Consistent(t) && Ordered(t, clock) && clock <= d.deliverAt && d.id == t.state.nextId
    ensures forall r <- t.released, h <- Put(t.state.held, d) :: Earlier(r, h)
  {
    HeldWasScheduled(t);
    PutFresh(t.state.held, d);
    forall r, h | r in t.released && h in Put(t.state.held, d) ensures Earlier(r, h) {
      assert h in multiset(Put(t.state.held, d));
    }
  }

  lemma DrainKeepsOrder(t: Trace, now: int, clock: int)
    requires Consistent(t) && Ordered(t, clock) && clock <= now
    ensures Ordered(Step(t, Drain(now)), now)
  {
    HeldWasScheduled(t);
    var held, n := t.state.held, ReadyCount(t.state.held, now);
    SplitSorted(held, n);
    assert forall h <- held[..n] :: h in held && h in t.scheduled && Ready(h, now);
    assert forall h <- held[n..] :: h in held;
    JoinSorted(t.released, held[..n]);
    hide Sorted, Consistent, Earlier;
  }

  lemma JoinSorted(a: seq<Delayed>, b: seq<Delayed>)
    requires Sorted(a) && Sorted(b) && forall x <- a, y <- b :: Earlier(x, y)
    ensures Sorted(a + b)
  {
    hide Earlier;
  }

  lemma StepKeepsOrder(t: Trace, op: Op, clock: int)
    requires Consistent(t) && Ordered(t, clock) && clock <= op.now
    ensures Ordered(Step(t, op), op.now)
  {
    match op
    case Schedule(now, delay, queue, message) =>
      ScheduleKeepsOrder(t, Delayed(now + delay, t.state.nextId, queue, message), clock);
      hide Sorted, Consistent, Earlier;
    case Drain(now) =>
      DrainKeepsOrder(t, now, clock);
  }

  lemma {:induction false} RunIsOrdered(ops: seq<Op>)
    requires ClockAdvances(ops)
    ensures ops != [] ==> Ordered(Run(ops), ops[|ops| - 1].now)
  {
    if ops != [] {
      var init, op := ops[..|ops| - 1], ops[|ops| - 1];
      NothingLostNothingEarly(init);
      RunIsOrdered(init);
      var clock := if init == [] then op.now else init[|init| - 1].now;
      StepKeepsOrder(Run(init), op, clock);
    }
  }

  /** Under a clock that never goes back, the drains together release in strict key order. */
  lemma ReleasedInOrder(ops: seq<Op>)
    requires ClockAdvances(ops)
    ensures Sorted(Run(ops).released)
  {
    RunIsOrdered(ops);
  }
}
