/** The token bucket in front of ingestion, with reals for its floating-point arithmetic. */
module RateLimit {

  datatype Limit = Limit(rate: real, burst: int)
  {
    predicate Positive() { rate > 0.0 && burst > 0 }
  }

  /** Tokens and the time, in seconds, of the last refill. */
  datatype Bucket = Bucket(tokens: real, lastFill: real)

  function Full(lim: Limit, now: real): Bucket { Bucket(lim.burst as real, now) }

  /** The tokens that come in during so many seconds. */
  function Income(lim: Limit, seconds: real): real { seconds * lim.rate }

  function Refilled(lim: Limit, b: Bucket, now: real): real {
    var tokens := b.tokens + Income(lim, now - b.lastFill);
    if tokens > lim.burst as real then lim.burst as real else tokens
  }

  function Called(lim: Limit, b: Bucket, now: real): Bucket {
    var tokens := Refilled(lim, b, now);
    Bucket(if tokens < 1.0 then tokens else tokens - 1.0, now)
  }

  /** A clock that does not go back, starting when the bucket is made. */
  predicate Clock(created: real, times: seq<real>) {
    && (forall k :: 0 <= k < |times| ==> created <= times[k])
    && (forall i, j :: 0 <= i <= j < |times| ==> times[i] <= times[j])
  }

  /** The bucket after the first `n` calls. */
  function After(lim: Limit, created: real, times: seq<real>, n: nat): Bucket
    requires n <= |times|
  {
    if n == 0 then Full(lim, created) else Called(lim, After(lim, created, times, n - 1), times[n - 1])
  }

  predicate Admits(lim: Limit, created: real, times: seq<real>, k: nat)
    requires k < |times|
  {
    Refilled(lim, After(lim, created, times, k), times[k]) >= 1.0
  }

  /** How many of the calls from `i` up to but not including `j` are admitted. */
  function Admitted(lim: Limit, created: real, times: seq<real>, i: nat, j: nat): nat
    requires i <= j <= |times|
    decreases j
  {
    if i == j then 0 else Admitted(lim, created, times, i, j - 1) + if Admits(lim, created, times, j - 1) then 1 else 0
  }

  lemma IncomeNonNegative(lim: Limit, seconds: real)
    requires lim.Positive() && seconds >= 0.0
    ensures Income(lim, seconds) >= 0.0
  {}

  lemma IncomeAdds(lim: Limit, x: real, y: real)
    ensures Income(lim, x) + Income(lim, y) == Income(lim, x + y)
  {}

  lemma NoIncome(lim: Limit)
    ensures Income(lim, 0.0) == 0.0
  {}

  /** In 1/rate seconds one token comes in. */
  lemma OneToken(lim: Limit, seconds: real)
    requires lim.Positive() && seconds >= 1.0 / lim.rate
    ensures Income(lim, seconds) >= 1.0
  {
    assert (1.0 / lim.rate) * lim.rate == 1.0;
    IncomeNonNegative(lim, seconds - 1.0 / lim.rate);
    IncomeAdds(lim, seconds - 1.0 / lim.rate, 1.0 / lim.rate);
  }

  /** The tokens stay between zero and the burst. */
  lemma {:induction false} TokensBounded(lim: Limit, created: real, times: seq<real>, n: nat)
    requires lim.Positive() && Clock(created, times) && n <= |times|
    ensures 0.0 <= After(lim, created, times, n).tokens <= lim.burst as real
    ensures After(lim, created, times, n).lastFill == if n == 0 then created else times[n - 1]
  {
    if n > 0 {
      TokensBounded(lim, created, times, n - 1);
      hide Income;
      IncomeNonNegative(lim, times[n - 1] - After(lim, created, times, n - 1).lastFill);
    }
  }

  /** Every admission uses up a token that was there at call `i` or came in since. */
  lemma {:induction false} TokensSpent(lim: Limit, created: real, times: seq<real>, i: nat, j: nat)
    requires lim.Positive() && Clock(created, times) && i < j <= |times|
    ensures Admitted(lim, created, times, i, j) as real + After(lim, created, times, j).tokens
            <= lim.burst as real + Income(lim, times[j - 1] - times[i])
    decreases j
  {
    hide Income;
    TokensBounded(lim, created, times, j - 1);
    if j == i + 1 {
      assert Admitted(lim, created, times, i, i) == 0;
      NoIncome(lim);
    } else {
      TokensSpent(lim, created, times, i, j - 1);
      IncomeAdds(lim, times[j - 2] - times[i], times[j - 1] - times[j - 2]);
    }
  }

  /** Between any two calls at most the burst and what the rate brings in is admitted. */
  lemma AdmissionBound(lim: Limit, created: real, times: seq<real>, i: nat, j: nat)
    requires lim.Positive() && Clock(created, times) && i <= j < |times|
    ensures Admitted(lim, created, times, i, j + 1) as real <= lim.burst as real + (times[j] - times[i]) * lim.rate
  {
    hide Admitted, After;
    TokensSpent(lim, created, times, i, j + 1);
    TokensBounded(lim, created, times, j + 1);
  }

  predicate AllDenied(lim: Limit, created: real, times: seq<real>, i: nat, j: nat)
    requires i <= j <= |times|
  {
    forall k :: i <= k < j ==> !Admits(lim, created, times, k)
  }

  /** While calls are denied, all that comes in is kept. */
  lemma {:induction false} TokensAccrue(lim: Limit, created: real, times: seq<real>, i: nat, j: nat)
    requires lim.Positive() && Clock(created, times) && i < j <= |times| && AllDenied(lim, created, times, i, j)
    ensures After(lim, created, times, j).tokens >= Income(lim, times[j - 1] - times[i])
    decreases j
  {
    hide Income;
    TokensBounded(lim, created, times, j);
    TokensBounded(lim, created, times, j - 1);
    assert !Admits(lim, created, times, j - 1);
    if j > i + 1 {
      TokensAccrue(lim, created, times, i, j - 1);
      IncomeAdds(lim, times[j - 2] - times[i], times[j - 1] - times[j - 2]);
    } else {
      NoIncome(lim);
    }
  }

  /** After a denial, and with no admission in between, a call at least 1/rate later is admitted. */
  lemma AdmittedAgain(lim: Limit, created: real, times: seq<real>, i: nat, j: nat)
    requires lim.Positive() && Clock(created, times) && i < j < |times| && AllDenied(lim, created, times, i, j)
    requires times[j] - times[i] >= 1.0 / lim.rate
    ensures Admits(lim, created, times, j)
  {
    TokensAccrue(lim, created, times, i, j);
    TokensBounded(lim, created, times, j);
    OneToken(lim, times[j] - times[i]);
    hide Income, After;
    IncomeAdds(lim, times[j - 1] - times[i], times[j] - times[j - 1]);
  }

  /** With a clock that goes back the tokens may fall below zero: the bound needs the clock. */
  lemma ClockBackwards()
    ensures After(Limit(1.0, 1), 0.0, [-5.0], 1).tokens < 0.0
  {
    assert After(Limit(1.0, 1), 0.0, [-5.0], 0) == Bucket(1.0, 0.0);
  }

  // ---------- The code ----------

  class TokenBucket {
    const lim: Limit
    var tokens: real
    var lastFill: real

    function View(): Bucket
      reads this
    {
      Bucket(tokens, lastFill)
    }

    constructor (lim: Limit, now: real)
      ensures this.lim == lim && View() == Full(lim, now)
    {
      this.lim := lim;
      tokens := lim.burst as real;
      lastFill := now;
    }
  }

  /** No bucket at all when the rate or the burst is not positive. */
  method NewTokenBucket(requestsPerSecond: real, burst: int, now: real) returns (b: TokenBucket?)
    ensures b == null <==> !Limit(requestsPerSecond, burst).Positive()
    ensures b != null ==> fresh(b) && b.lim == Limit(requestsPerSecond, burst) && b.View() == Full(b.lim, now)
  {
    if requestsPerSecond <= 0.0 || burst <= 0 {
      return null;
    }
    b := new TokenBucket(Limit(requestsPerSecond, burst), now);
  }

  /** A missing bucket admits every call. */
  method Allow(b: TokenBucket?, now: real) returns (ok: bool)
    modifies b
    ensures b == null ==> ok
    ensures b != null ==>
              var refilled := old(b.tokens) + (now - old(b.lastFill)) * b.lim.rate;
              && (ok <==> refilled >= 1.0 && b.lim.burst >= 1)
              && b.lastFill == now
              && b.tokens + (if ok then 1.0 else 0.0)
                 == if refilled <= b.lim.burst as real then refilled else b.lim.burst as real
    ensures b != null ==>
              && ok == (Refilled(b.lim, old(b.View()), now) >= 1.0)
              && b.View() == Called(b.lim, old(b.View()), now)
  {
    if b == null {
      return true;
    }
    b.tokens := b.tokens + Income(b.lim, now - b.lastFill);
    if b.tokens > b.lim.burst as real {
      b.tokens := b.lim.burst as real;
    }
    b.lastFill := now;
    if b.tokens < 1.0 {
      return false;
    }
    b.tokens := b.tokens - 1.0;
    ok := true;
  }

  /** A run of calls on a new bucket answers as the state machine does. */
  method RunCalls(requestsPerSecond: real, burst: int, created: real, times: seq<real>) returns (answers: seq<bool>)
    ensures |answers| == |times|
    ensures var lim := Limit(requestsPerSecond, burst);
      forall k :: 0 <= k < |times| ==> answers[k] == (!lim.Positive() || Admits(lim, created, times, k))
  {
    var b := NewTokenBucket(requestsPerSecond, burst, created);
    answers := [];
    for k := 0 to |times|
      invariant |answers| == k
      invariant b != null ==> fresh(b) && b.View() == After(b.lim, created, times, k)
      invariant forall h :: 0 <= h < k ==> answers[h] == (b == null || Admits(b.lim, created, times, h))
    {
      var ok := Allow(b, times[k]);
      answers := answers + [ok];
    }
  }
}
