// The token bucket that limits a queue's rate, over real-valued tokens and time.
module TokenBuckets {
  import opened Bytes

  datatype Bucket = Bucket(rate: u32, tokens: real, lastRefill: real)

  function Full(rate: u32, now: real): Bucket {
    Bucket(rate, rate as real, now)
  }

  function Min(a: real, b: real): real {
    if a <= b then a else b
  }

  /** Time since the last refill; none when the clock has gone back. */
  function Elapsed(b: Bucket, now: real): real {
    if now <= b.lastRefill then 0.0 else now - b.lastRefill
  }

  function Refilled(b: Bucket, now: real): Bucket {
    b.(tokens := Min(b.tokens + Elapsed(b, now) * b.rate as real, b.rate as real), lastRefill := now)
  }

  function Consumed(b: Bucket, now: real): (Bucket, bool) {
    var r := Refilled(b, now);
    if r.tokens >= 1.0 then (r.(tokens := r.tokens - 1.0), true) else (r, false)
  }

  predicate InRange(b: Bucket) {
    0.0 <= b.tokens <= b.rate as real
  }

  class TokenBucket {
    const rate: u32
    var tokens: real
    var lastRefill: real

    function View(): Bucket
      reads this
    {
      Bucket(rate, tokens, lastRefill)
    }

    constructor (rate: u32, now: real)
      ensures View() == Full(rate, now) && InRange(View())
    {
      this.rate, tokens, lastRefill := rate, rate as real, now;
    }

    method Refill(now: real)
      requires InRange(View())
      modifies this
      ensures View() == Refilled(old(View()), now) && InRange(View())
    {
      RefillStaysInRange(View(), now);
      var elapsed := if now <= lastRefill then 0.0 else now - lastRefill;
      tokens := Min(tokens + elapsed * rate as real, rate as real);
      lastRefill := now;
    }

    method TryConsume(now: real) returns (granted: bool)
      requires InRange(View())
      modifies this
      ensures (View(), granted) == Consumed(old(View()), now) && InRange(View())
    {
      Refill(now);
      if tokens >= 1.0 {
        tokens := tokens - 1.0;
        granted := true;
      } else {
        granted := false;
      }
    }
  }

  lemma RefillStaysInRange(b: Bucket, now: real)
    requires InRange(b)
    ensures InRange(Refilled(b, now))
  {
    assert Elapsed(b, now) * b.rate as real >= 0.0;
  }

  /**
   * A call finds what was left and what time brought, up to a full bucket, and is granted exactly
   * when that is a whole token, which it takes. A clock that has gone back brings nothing, but the
   * time of the call counts as that of the last refill.
   */
  lemma ConsumesOneIff(b: Bucket, now: real)
    ensures var (x, granted) := Consumed(b, now);
      var brought := if now > b.lastRefill then (now - b.lastRefill) * b.rate as real else 0.0;
      var found := if b.tokens + brought > b.rate as real then b.rate as real else b.tokens + brought;
      && (granted <==> found >= 1.0)
      && x == Bucket(b.rate, if granted then found - 1.0 else found, now)
  {
    assert 0.0 * b.rate as real == 0.0;
  }

  // Runs of calls at the given times.

  function After(b: Bucket, times: seq<real>): Bucket {
    if times == [] then b
    else Consumed(After(b, times[..|times| - 1]), times[|times| - 1]).0
  }

  function Grants(b: Bucket, times: seq<real>): nat {
    if times == [] then 0
    else
      var init := times[..|times| - 1];
      Grants(b, init) + if Consumed(After(b, init), times[|times| - 1]).1 then 1 else 0
  }

  predicate NonDecreasing(times: seq<real>) {
    forall i, j :: 0 <= i < j < |times| ==> times[i] <= times[j]
  }

  lemma {:induction false} TokensStayInRange(b: Bucket, times: seq<real>)
    requires InRange(b)
    ensures InRange(After(b, times)) && After(b, times).rate == b.rate
    ensures times != [] ==> After(b, times).lastRefill == times[|times| - 1]
  {
    if times != [] {
      TokensStayInRange(b, times[..|times| - 1]);
      RefillStaysInRange(After(b, times[..|times| - 1]), times[|times| - 1]);
    }
  }

  /** What a rate brings over a stretch of time. */
  function Earned(rate: u32, from: real, until: real): real {
    rate as real * (until - from)
  }

  /** One call spends and keeps no more than was there and what time brought. */
  lemma CallBound(b: Bucket, now: real)
    requires InRange(b)
    ensures var (x, granted) := Consumed(b, now);
      && x.tokens + (if granted then 1.0 else 0.0) <= b.rate as real
      && (b.lastRefill <= now ==>
            x.tokens + (if granted then 1.0 else 0.0)
            <= b.tokens + Earned(b.rate, b.lastRefill, now))
  {
    RefillStaysInRange(b, now);
    assert b.lastRefill <= now ==>
      Elapsed(b, now) * b.rate as real == b.rate as real * (now - b.lastRefill);
  }

  lemma EarnedAdds(rate: u32, a: real, b: real, c: real)
    ensures Earned(rate, a, b) + Earned(rate, b, c) == Earned(rate, a, c)
  {
  }

  /** The tokens left and the grants made never exceed a full bucket and what time brought. */
  lemma {:induction false} GrantsAndTokens(b: Bucket, times: seq<real>)
    requires InRange(b) && times != [] && NonDecreasing(times)
    ensures Grants(b, times) as real + After(b, times).tokens
         <= b.rate as real + Earned(b.rate, times[0], times[|times| - 1])
  {
    hide Earned, Consumed, InRange;
    var n := |times|;
    var init := times[..n - 1];
    EarnedAdds(b.rate, times[0], times[0], times[0]);
    if n == 1 {
      assert init == [];
      CallBound(b, times[0]);
    } else {
      GrantsAndTokens(b, init);
      TokensStayInRange(b, init);
      assert After(b, init).lastRefill == times[n - 2] <= times[n - 1];
      CallBound(After(b, init), times[n - 1]);
      EarnedAdds(b.rate, times[0], times[n - 2], times[n - 1]);
    }
  }

  lemma {:induction false} AfterJoin(b: Bucket, a: seq<real>, c: seq<real>)
    ensures After(b, a + c) == After(After(b, a), c)
    ensures Grants(b, a + c) == Grants(b, a) + Grants(After(b, a), c)
    decreases |c|
  {
    if c == [] {
      assert a + c == a;
    } else {
      assert (a + c)[..|a + c| - 1] == a + c[..|c| - 1];
      AfterJoin(b, a, c[..|c| - 1]);
    }
  }

  /**
   * In any run from a full bucket, the calls from the i-th up to the j-th, over a window of
   * length T, are granted at most rate + rate * T times.
   */
  lemma WindowBound(rate: u32, start: real, times: seq<real>, i: nat, j: nat)
    requires i < j <= |times| && NonDecreasing(times)
    ensures var b := Full(rate, start);
      (Grants(b, times[..j]) - Grants(b, times[..i])) as real
      <= rate as real + Earned(rate, times[i], times[j - 1])
  {
    hide Earned, Consumed;
    var b, window := Full(rate, start), times[i..j];
    assert times[..j] == times[..i] + window;
    AfterJoin(b, times[..i], window);
    TokensStayInRange(b, times[..i]);
    assert NonDecreasing(window);
    GrantsAndTokens(After(b, times[..i]), window);
    TokensStayInRange(After(b, times[..i]), window);
    assert window[|window| - 1] == times[j - 1] && window[0] == times[i];
  }

  function Repeat(t: real, n: nat): seq<real> {
    if n == 0 then [] else Repeat(t, n - 1) + [t]
  }

  /** The bound is met: a full bucket grants a burst of `rate` calls, and then refuses. */
  lemma {:induction false} FullBucketGrantsBurst(rate: u32, t: real, n: nat)
    requires n <= rate
    ensures Grants(Full(rate, t), Repeat(t, n)) == n
    ensures After(Full(rate, t), Repeat(t, n)) == Bucket(rate, (rate - n) as real, t)
    ensures Consumed(After(Full(rate, t), Repeat(t, n)), t).1 <==> n < rate
  {
    if n > 0 {
      FullBucketGrantsBurst(rate, t, n - 1);
      assert Repeat(t, n)[..|Repeat(t, n)| - 1] == Repeat(t, n - 1);
    }
  }

  /** A pause long enough for one token is always followed by a grant. */
  lemma PauseEarnsGrant(b: Bucket, now: real)
    requires InRange(b) && b.rate >= 1
    requires (now - b.lastRefill) * b.rate as real >= 1.0
    ensures Consumed(b, now).1
  {
    assert now <= b.lastRefill ==> (now - b.lastRefill) * b.rate as real <= 0.0;
  }
}
