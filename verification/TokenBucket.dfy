/** The bandwidth limiter (proxy.RateLimiter): a token bucket refilled from elapsed time. Times are
    nanoseconds on the monotonic clock; the rate arithmetic is exact. */
module TokenBucket {

  const SECOND := 1_000_000_000
  const MILLISECOND := 1_000_000

  datatype Bucket = Bucket(bytesPerSec: int, tokens: int, maxBurst: int, lastRefill: int, enabled: bool)

  /** An enabled limiter at a fixed rate. */
  predicate Sound(b: Bucket) {
    b.enabled && b.bytesPerSec > 0 && b.maxBurst > 0 && 0 <= b.tokens <= b.maxBurst
  }

  /** An enabled limiter, which may hold more than its burst after a change of rate. */
  predicate Live(b: Bucket) {
    b.enabled && b.bytesPerSec > 0 && b.maxBurst > 0 && 0 <= b.tokens
  }

  /** Whole tokens earned since the last refill; a fraction is kept only while no whole one is earned. */
  function Refill(b: Bucket, now: int): Bucket {
    var newTokens := (now - b.lastRefill) * b.bytesPerSec / SECOND;
    if newTokens > 0
    then b.(tokens := if b.tokens + newTokens > b.maxBurst then b.maxBurst else b.tokens + newTokens, lastRefill := now)
    else b
  }

  /** How long a caller sleeps when a refilled bucket is short of `n`. */
  function WaitTime(b: Bucket, n: int): int
    requires b.bytesPerSec > 0
  {
    var sleep := (n - b.tokens) * SECOND / b.bytesPerSec;
    if sleep < MILLISECOND then MILLISECOND else sleep
  }

  // Credit: tokens and the fraction still in the clock, in billionths of a byte

  function Credit(b: Bucket, t: int): int {
    b.tokens * SECOND + (t - b.lastRefill) * b.bytesPerSec
  }

  lemma MulSplit(a: int, b: int, r: int)
    ensures (a + b) * r == a * r + b * r
  {
  }

  lemma MulMonotone(a: int, b: int, r: nat)
    requires a <= b
    ensures a * r <= b * r
  {
    MulSplit(a, b - a, r);
  }

  lemma CreditGrows(b: Bucket, t: int, t': int)
    ensures Credit(b, t') == Credit(b, t) + (t' - t) * b.bytesPerSec
  {
    MulSplit(t - b.lastRefill, t' - t, b.bytesPerSec);
    assert (t - b.lastRefill) + (t' - t) == t' - b.lastRefill;
  }

  /** The most tokens a bucket can come to hold: its burst, or what it still holds above it. */
  function Cap(b: Bucket): int {
    if b.tokens > b.maxBurst then b.tokens else b.maxBurst
  }

  /** A refill keeps the bucket live, never creates credit, and leaves less than one token in the clock. */
  lemma RefillKeepsLive(b: Bucket, t: int)
    requires Live(b) && b.lastRefill <= t
    ensures var r := Refill(b, t);
            && Live(r) && r.lastRefill <= t && r.bytesPerSec == b.bytesPerSec && r.maxBurst == b.maxBurst
            && Credit(r, t) <= Credit(b, t) && Cap(r) <= Cap(b)
            && Credit(r, t) < (Cap(b) + 1) * SECOND
            && 0 <= (t - r.lastRefill) * r.bytesPerSec < SECOND
  {
    var earned := (t - b.lastRefill) * b.bytesPerSec;
    MulMonotone(0, t - b.lastRefill, b.bytesPerSec);
    assert earned / SECOND * SECOND <= earned < earned / SECOND * SECOND + SECOND;
  }

  /** A refill keeps the bucket sound, never creates credit, and leaves less than one token in the
      clock: a full bucket and a fraction is the most it can hold. */
  lemma RefillKeepsCredit(b: Bucket, t: int)
    requires Sound(b) && b.lastRefill <= t
    ensures var r := Refill(b, t);
            && Sound(r) && r.lastRefill <= t && r.bytesPerSec == b.bytesPerSec && r.maxBurst == b.maxBurst
            && Credit(r, t) <= Credit(b, t)
            && Credit(r, t) < (b.maxBurst + 1) * SECOND
            && b.tokens <= r.tokens && 0 <= (t - r.lastRefill) * r.bytesPerSec < SECOND
  {
    var earned := (t - b.lastRefill) * b.bytesPerSec;
    MulMonotone(0, t - b.lastRefill, b.bytesPerSec);
    assert earned / SECOND * SECOND <= earned < earned / SECOND * SECOND + SECOND;
  }

  // Runs at a fixed rate

  /** One pass through Wait's critical section by some caller. */
  datatype Try = Try(n: int, now: int)

  predicate Ordered(tries: seq<Try>, t: int) {
    tries == [] || (tries[0].n > 0 && t <= tries[0].now && Ordered(tries[1..], tries[0].now))
  }

  function AfterTry(b: Bucket, try: Try): Bucket {
    var r := Refill(b, try.now);
    if r.tokens >= try.n then r.(tokens := r.tokens - try.n) else r
  }

  predicate Grants(b: Bucket, try: Try) {
    Refill(b, try.now).tokens >= try.n
  }

  function RunTries(b: Bucket, tries: seq<Try>): Bucket
    decreases |tries|
  {
    if tries == [] then b else RunTries(AfterTry(b, tries[0]), tries[1..])
  }

  /** Bytes granted at times in [lo, hi]. */
  function Granted(b: Bucket, tries: seq<Try>, lo: int, hi: int): int
    decreases |tries|
  {
    if tries == [] then 0
    else (if Grants(b, tries[0]) && lo <= tries[0].now <= hi then tries[0].n else 0)
         + Granted(AfterTry(b, tries[0]), tries[1..], lo, hi)
  }

  /** Tokens stay between zero and the burst size, or what was held above it, over every interleaving of
      callers. */
  lemma {:induction false} TokensStayInRange(b: Bucket, tries: seq<Try>, t: int)
    requires Live(b) && b.lastRefill <= t && Ordered(tries, t)
    ensures var b' := RunTries(b, tries); Live(b') && Cap(b') <= Cap(b) && b'.maxBurst == b.maxBurst
    ensures Sound(b) ==> Sound(RunTries(b, tries))
    decreases |tries|
  {
    if tries != [] {
      RefillKeepsLive(b, tries[0].now);
      TokensStayInRange(AfterTry(b, tries[0]), tries[1..], tries[0].now);
    }
  }

  /** Grants are paid for out of the credit at `t` and what the clock adds until `hi`. */
  lemma {:induction false} GrantsArePaid(b: Bucket, tries: seq<Try>, t: int, lo: int, hi: int)
    requires Live(b) && b.lastRefill <= t <= hi && Ordered(tries, t)
    ensures Granted(b, tries, lo, hi) * SECOND <= Credit(b, t) + (hi - t) * b.bytesPerSec
    decreases |tries|
  {
    MulMonotone(0, t - b.lastRefill, b.bytesPerSec);
    MulMonotone(0, hi - t, b.bytesPerSec);
    if tries != [] {
      var now := tries[0].now;
      RefillKeepsLive(b, now);
      var b' := AfterTry(b, tries[0]);
      if now <= hi {
        GrantsArePaid(b', tries[1..], now, lo, hi);
        CreditGrows(b, t, now);
        MulSplit(now - t, hi - now, b.bytesPerSec);
        assert (now - t) + (hi - now) == hi - t;
      } else {
        NothingAfter(b', tries[1..], now, lo, hi);
      }
    }
  }

  lemma {:induction false} NothingAfter(b: Bucket, tries: seq<Try>, t: int, lo: int, hi: int)
    requires hi < t && Ordered(tries, t)
    ensures Granted(b, tries, lo, hi) == 0
    decreases |tries|
  {
    if tries != [] {
      NothingAfter(AfterTry(b, tries[0]), tries[1..], tries[0].now, lo, hi);
    }
  }

  /** The guarantee, for every enabled bucket, also one that holds more than its burst after a change of rate:
      in any interval of length T the callers together get less than Cap + bytesPerSec * T + 1 bytes, where
      Cap is the burst size or the tokens held, whichever is more. */
  lemma {:induction false} GrantedIsBounded(b: Bucket, tries: seq<Try>, t: int, lo: int, hi: int)
    requires Live(b) && b.lastRefill <= t && Ordered(tries, t) && lo <= hi
    ensures Granted(b, tries, lo, hi) * SECOND < (Cap(b) + 1) * SECOND + (hi - lo) * b.bytesPerSec
    decreases |tries|
  {
    MulMonotone(0, hi - lo, b.bytesPerSec);
    if tries != [] {
      var now := tries[0].now;
      RefillKeepsLive(b, now);
      var r, b' := Refill(b, now), AfterTry(b, tries[0]);
      if now < lo {
        GrantedIsBounded(b', tries[1..], now, lo, hi);
      } else if now <= hi {
        GrantsArePaid(b', tries[1..], now, lo, hi);
        assert Credit(b', now) + (if Grants(b, tries[0]) then tries[0].n else 0) * SECOND == Credit(r, now);
        MulMonotone(hi - now, hi - lo, b.bytesPerSec);
      } else {
        NothingAfter(b', tries[1..], now, lo, hi);
      }
    }
  }

  // And nothing is wasted

  function Last(tries: seq<Try>, t: int): int
    decreases |tries|
  {
    if tries == [] then t else Last(tries[1..], tries[0].now)
  }

  /** No pass finds the bucket full. */
  predicate NeverFull(b: Bucket, tries: seq<Try>)
    decreases |tries|
  {
    tries == [] || (Refill(b, tries[0].now).tokens < b.maxBurst && NeverFull(AfterTry(b, tries[0]), tries[1..]))
  }

  /** A refill of a bucket that does not fill loses less than one token, and a grant costs exactly its size. */
  lemma TryKeepsCredit(b: Bucket, try: Try)
    requires Live(b) && b.lastRefill <= try.now && Refill(b, try.now).tokens < b.maxBurst
    ensures Credit(AfterTry(b, try), try.now) + (if Grants(b, try) then try.n else 0) * SECOND
            > Credit(b, try.now) - SECOND
  {
    var earned := (try.now - b.lastRefill) * b.bytesPerSec;
    MulMonotone(0, try.now - b.lastRefill, b.bytesPerSec);
    assert earned / SECOND * SECOND <= earned < earned / SECOND * SECOND + SECOND;
  }

  /** The other direction of `GrantsArePaid`: as long as the bucket does not fill, all that was there and all that
      the clock adds is granted or still there, but for less than one token a pass. */
  lemma {:induction false} NothingIsWasted(b: Bucket, tries: seq<Try>, t: int, lo: int, hi: int)
    requires Live(b) && b.lastRefill <= t && Ordered(tries, t) && lo <= t && Last(tries, t) <= hi
    requires NeverFull(b, tries)
    ensures Granted(b, tries, lo, hi) * SECOND + Credit(RunTries(b, tries), Last(tries, t))
            >= Credit(b, t) + (Last(tries, t) - t) * b.bytesPerSec - |tries| * SECOND
    ensures t <= Last(tries, t)
    decreases |tries|
  {
    if tries != [] {
      var now, end := tries[0].now, Last(tries, t);
      RefillKeepsLive(b, now);
      TryKeepsCredit(b, tries[0]);
      CreditGrows(b, t, now);
      var b' := AfterTry(b, tries[0]);
      NothingIsWasted(b', tries[1..], now, lo, hi);
      MulSplit(now - t, end - now, b.bytesPerSec);
      assert (now - t) + (end - now) == end - t;
      assert b'.bytesPerSec == b.bytesPerSec;
      hide Refill, AfterTry, Credit, NeverFull, RunTries;
      assert Granted(b, tries, lo, hi) ==
          (if Grants(b, tries[0]) then tries[0].n else 0) + Granted(b', tries[1..], lo, hi);
    }
  }

  // A single waiter

  /** The bucket after passing through the critical section at each of these times without success. */
  function RefillAll(b: Bucket, times: seq<int>): Bucket
    decreases |times|
  {
    if times == [] then b else Refill(RefillAll(b, times[..|times| - 1]), times[|times| - 1])
  }

  /** Every pass was short of `n`, and each sleep lasted at least as long as asked. */
  ghost predicate ShortAt(b: Bucket, n: int, times: seq<int>)
    requires b.bytesPerSec > 0
  {
    && (forall i :: 0 <= i < |times| ==> After(b, times, i).tokens < n)
    && (forall i :: 0 <= i < |times| - 1 ==> Slept(b, n, times, i))
  }

  ghost predicate Slept(b: Bucket, n: int, times: seq<int>, i: nat)
    requires i + 1 < |times|
  {
    After(b, times, i).bytesPerSec > 0 && times[i + 1] >= times[i] + WaitTime(After(b, times, i), n)
  }

  function After(b: Bucket, times: seq<int>, i: int): Bucket
    requires 0 <= i < |times|
  {
    RefillAll(b, times[..i + 1])
  }

  lemma AfterStep(b: Bucket, times: seq<int>, i: int)
    requires 0 <= i < |times|
    ensures After(b, times, i) == Refill(if i == 0 then b else After(b, times, i - 1), times[i])
  {
    var upTo := times[..i + 1];
    assert upTo[..i] == times[..i] && upTo[i] == times[i];
    assert RefillAll(b, upTo) == Refill(RefillAll(b, upTo[..i]), upTo[i]);
    if i == 0 {
      assert times[..0] == [];
    }
  }

  /** A sleep pays for the whole deficit up to rounding, and for a millisecond at least. */
  lemma SleepPays(b: Bucket, n: int, t: int, t': int)
    requires Sound(b) && b.lastRefill <= t && b.tokens < n && t' >= t + WaitTime(b, n)
    ensures var earned := (t' - b.lastRefill) * b.bytesPerSec;
            && earned >= (t - b.lastRefill) * b.bytesPerSec + MILLISECOND * b.bytesPerSec
            && earned >= (t - b.lastRefill) * b.bytesPerSec + (n - b.tokens) * SECOND - b.bytesPerSec + 1
  {
    var r, w, d := b.bytesPerSec, WaitTime(b, n), (n - b.tokens) * SECOND;
    MulSplit(t - b.lastRefill, t' - t, r);
    assert (t - b.lastRefill) + (t' - t) == t' - b.lastRefill;
    MulMonotone(w, t' - t, r);
    MulMonotone(MILLISECOND, w, r);
    MulMonotone(d / r, w, r);
    assert d / r * r > d - r by {
      assert d == d / r * r + d % r;
    }
  }

  /** And it is no longer than that: unless it is a millisecond, the least sleep there is, the tokens are not
      yet all there at any time before it ends, or there to the last one if a fraction was left in the clock. */
  lemma SleepIsNoLonger(b: Bucket, n: int, t: int, t': int)
    requires Live(b) && b.lastRefill <= t <= t' && b.tokens < n && (t - b.lastRefill) * b.bytesPerSec < SECOND
    requires WaitTime(b, n) > 1_000_000 && t' < t + WaitTime(b, n)
    ensures Refill(b, t').tokens <= n && (b.lastRefill == t ==> Refill(b, t').tokens < n)
  {
    var r, w, d := b.bytesPerSec, WaitTime(b, n), (n - b.tokens) * SECOND;
    assert w == d / r;
    MulSplit(t - b.lastRefill, t' - t, r);
    assert (t - b.lastRefill) + (t' - t) == t' - b.lastRefill;
    MulMonotone(t' - t, w - 1, r);
    MulSplit(w, -1, r);
    assert d == d / r * r + d % r;
    var earned := (t' - b.lastRefill) * r;
    assert earned < d + SECOND;
    hide WaitTime;
  }

  /** A waiter that asks for no more than the burst size is short at most three times: it sleeps at
      most three times, however long each sleep really lasts. */
  lemma WaitIsShort(b: Bucket, n: int, times: seq<int>)
    requires Sound(b) && 0 < n <= b.maxBurst && ShortAt(b, n, times)
    requires |times| > 0 ==> b.lastRefill <= times[0]
    ensures |times| <= 3
  {
    if |times| > 3 {
      AfterStep(b, times, 0);
      AfterStep(b, times, 1);
      AfterStep(b, times, 2);
      AfterStep(b, times, 3);
      RefillKeepsCredit(b, times[0]);
      assert Slept(b, n, times, 0) && Slept(b, n, times, 1) && Slept(b, n, times, 2);
      var b0, b1, b2 := After(b, times, 0), After(b, times, 1), After(b, times, 2);
      hide Refill, WaitTime, RefillAll, After, Slept, ShortAt;
      ShortRound(b0, n, times[0], times[1]);
      ShortRound(b1, n, times[1], times[2]);
      ShortRound(b2, n, times[2], times[3]);
    }
  }

  /** One sleep that was not enough. */
  lemma ShortRound(b: Bucket, n: int, t: int, t': int)
    requires Sound(b) && b.lastRefill <= t && n <= b.maxBurst && b.tokens < n
    requires t' >= t + WaitTime(b, n) && Refill(b, t').tokens < n
    ensures var b' := Refill(b, t');
            var was, earned := (t - b.lastRefill) * b.bytesPerSec, (t' - b.lastRefill) * b.bytesPerSec;
            && Sound(b') && b'.lastRefill <= t' && b'.bytesPerSec == b.bytesPerSec && b'.maxBurst == b.maxBurst
            && earned >= was + MILLISECOND * b.bytesPerSec
            && earned >= was + (n - b.tokens) * SECOND - b.bytesPerSec + 1
            && earned < (n - b.tokens) * SECOND
            && (earned < SECOND ==> b' == b)
            && (earned >= SECOND ==> b'.lastRefill == t' && b'.tokens == b.tokens + earned / SECOND)
            && 0 <= (t' - b'.lastRefill) * b'.bytesPerSec < SECOND
  {
    hide Refill;
    WaitIsPositive(b, n);
    SleepPays(b, n, t, t');
    RefillKeepsCredit(b, t');
    ShortRefill(b, n, t');
  }

  /** What a refill that leaves the bucket short of `n` has earned. */
  lemma ShortRefill(b: Bucket, n: int, t: int)
    requires Sound(b) && b.lastRefill <= t && n <= b.maxBurst && Refill(b, t).tokens < n
    ensures var earned := (t - b.lastRefill) * b.bytesPerSec;
            && earned < (n - b.tokens) * SECOND
            && (earned < SECOND ==> Refill(b, t) == b)
            && (earned >= SECOND ==> Refill(b, t).lastRefill == t && Refill(b, t).tokens == b.tokens + earned / SECOND)
  {
    var earned := (t - b.lastRefill) * b.bytesPerSec;
    MulMonotone(0, t - b.lastRefill, b.bytesPerSec);
  }

  /** A waiter that asks for more than the burst size, and is short at first, is short for ever. */
  lemma {:induction false} WaitNeverEnds(b: Bucket, n: int, times: seq<int>)
    requires Live(b) && n > b.maxBurst && times != [] && !Grants(b, Try(n, times[0]))
    ensures RefillAll(b, times).tokens < n && RefillAll(b, times).maxBurst == b.maxBurst
    decreases |times|
  {
    var before := times[..|times| - 1];
    if before == [] {
      assert RefillAll(b, before) == b;
    } else {
      WaitNeverEnds(b, n, before);
    }
  }

  /** Some time later the bucket is full. */
  lemma FullAt(b: Bucket, now: int) returns (t: int)
    requires Live(b) && b.lastRefill <= now
    ensures RefillAll(b, [now] + [t]).tokens >= b.maxBurst
  {
    hide RefillAll;
    var b' := Refill(b, now);
    RefillKeepsLive(b, now);
    NothingRefilled(b);
    LastRefill(b, [], now);
    t := now + b.maxBurst * SECOND;
    LastRefill(b, [] + [now], t);
    assert [] + [now] == [now];
    hide Refill;
    LongEnough(b.maxBurst * SECOND, b.bytesPerSec, b'.lastRefill, now);
    FullAfter(b', t);
  }

  lemma LongEnough(d: nat, rate: int, last: int, now: int)
    requires rate >= 1 && last <= now
    ensures (now + d - last) * rate >= d
  {
    MulMonotone(d, now + d - last, rate);
    MulMonotone(1, rate, d);
  }

  lemma NothingRefilled(b: Bucket)
    ensures RefillAll(b, []) == b
  {
  }

  lemma FullAfter(b: Bucket, t: int)
    requires Live(b) && (t - b.lastRefill) * b.bytesPerSec >= b.maxBurst * SECOND
    ensures Refill(b, t).tokens >= b.maxBurst
  {
  }

  /** When Wait can return at all, for every enabled limiter: exactly when the request is no larger than the
      burst, or the tokens held grant it at once. */
  lemma WaitEndsIff(b: Bucket, n: int, now: int)
    requires Live(b) && n > 0 && b.lastRefill <= now
    ensures n <= b.maxBurst || Grants(b, Try(n, now)) <==>
            exists times :: times != [] && times[0] == now && Succeeds(b, n, times)
  {
    if Grants(b, Try(n, now)) {
      LastRefill(b, [], now);
      assert Succeeds(b, n, [] + [now]);
    } else if n <= b.maxBurst {
      var t := FullAt(b, now);
      assert Succeeds(b, n, [now] + [t]);
    } else {
      forall times | times != [] && times[0] == now
        ensures !Succeeds(b, n, times)
      {
        WaitNeverEnds(b, n, times);
      }
    }
  }

  /** A bucket above its burst grants any request up to the burst at once. */
  lemma SurplusGrants(b: Bucket, n: int, now: int)
    requires Live(b) && n <= b.maxBurst && !Grants(b, Try(n, now))
    ensures Sound(b)
  {
  }

  predicate Succeeds(b: Bucket, n: int, times: seq<int>) {
    times != [] && RefillAll(b, times).tokens >= n
  }

  // The objects

  /** A monotone clock whose sleeps last at least as long as asked; `overshoot` is by how much more. */
  class Clock {
    var now: int
    var sleeps: nat
    const overshoot: nat -> nat

    constructor (start: int, overshoot: nat -> nat)
      ensures now == start
    {
      now, sleeps, this.overshoot := start, 0, overshoot;
    }

    method Sleep(d: nat)
      modifies this
      ensures now >= old(now) + d
    {
      now := now + d + overshoot(sleeps);
      sleeps := sleeps + 1;
    }
  }

  class RateLimiter {
    var bytesPerSec: int
    var tokens: int
    var maxBurst: int
    var lastRefill: int
    var enabled: bool

    function View(): Bucket
      reads this
    {
      Bucket(bytesPerSec, tokens, maxBurst, lastRefill, enabled)
    }

    constructor (rate: int, now: int)
      ensures rate <= 0 ==> !enabled
      ensures rate > 0 ==> View() == Bucket(rate, rate, rate, now, true) && Sound(View())
    {
      bytesPerSec, tokens, maxBurst, lastRefill, enabled := 0, 0, 0, 0, false;
      if rate > 0 {
        bytesPerSec, tokens, maxBurst, lastRefill, enabled := rate, rate, rate, now, true;
      }
    }

    method SetRate(rate: int)
      modifies this
      ensures View() == RateSet(old(View()), rate)
      ensures old(tokens) >= 0 && rate > 0 ==> Live(View())
    {
      if rate <= 0 {
        enabled := false;
        return;
      }
      bytesPerSec := rate;
      maxBurst := rate;
      enabled := true;
    }

    method RefillNow(now: int)
      modifies this
      ensures View() == Refill(old(View()), now)
    {
      var elapsed := now - lastRefill;
      var newTokens := elapsed * bytesPerSec / SECOND;
      if newTokens > 0 {
        tokens := tokens + newTokens;
        if tokens > maxBurst {
          tokens := maxBurst;
        }
        lastRefill := now;
      }
    }

    /** One pass through the critical section; `waitTime` is how long to sleep if it was short. */
    method TryTake(n: int, now: int) returns (ok: bool, waitTime: int)
      requires bytesPerSec > 0
      modifies this
      ensures ok == Grants(old(View()), Try(n, now))
      ensures View() == AfterTry(old(View()), Try(n, now))
      ensures !ok ==> waitTime == WaitTime(View(), n)
    {
      RefillNow(now);
      ok, waitTime := tokens >= n, 0;
      if ok {
        tokens := tokens - n;
      } else {
        var deficit := n - tokens;
        waitTime := deficit * SECOND / bytesPerSec;
        if waitTime < MILLISECOND {
          waitTime := MILLISECOND;
        }
      }
    }

    /** Loops until the tokens are there. `times` are the failed passes; by `WaitIsShort` there are at
        most three. The precondition is the exact condition of `WaitEndsIff`: in every other case the loop
        does not end. */
    method Wait(n: int, clock: Clock) returns (ghost times: seq<int>)
      requires enabled && n > 0 ==>
                 Live(View()) && lastRefill <= clock.now && (n <= maxBurst || Grants(View(), Try(n, clock.now)))
      modifies this, clock
      ensures !old(enabled) || n <= 0 ==> View() == old(View()) && clock.now == old(clock.now)
      ensures old(enabled) && n > 0 ==>
                && |times| <= 3 && ShortAt(old(View()), n, times)
                && View() == AfterTry(RefillAll(old(View()), times), Try(n, clock.now))
                && Grants(RefillAll(old(View()), times), Try(n, clock.now))
    {
      hide WaitTime, Refill, RefillAll, ShortAt;
      times := [];
      if !enabled || n <= 0 {
        return;
      }
      ghost var b := View();
      NothingYet(b, n);
      while true
        invariant ShortAt(b, n, times) && View() == RefillAll(b, times)
        invariant Live(View()) && maxBurst == b.maxBurst && lastRefill <= clock.now
        invariant |times| > 0 ==> Sound(b) && Sound(View()) && n <= maxBurst
        invariant |times| == 0 ==> View() == b && (n <= maxBurst || Grants(b, Try(n, clock.now)))
        invariant |times| > 0 ==> times[|times| - 1] + WaitTime(View(), n) <= clock.now
        invariant b.lastRefill <= (if |times| > 0 then times[0] else clock.now)
        invariant |times| <= 3
        decreases 3 - |times|
      {
        ghost var before := View();
        if |times| == 0 && !Grants(b, Try(n, clock.now)) {
          SurplusGrants(b, n, clock.now);
        }
        if Sound(before) {
          RefillKeepsCredit(before, clock.now);
        }
        var ok, waitTime := TryTake(n, clock.now);
        if ok {
          return;
        }
        ExtendShort(b, n, times, clock.now);
        times := times + [clock.now];
        WaitIsShort(b, n, times);
        WaitIsPositive(View(), n);
        clock.Sleep(waitTime);
      }
    }
  }

  lemma NothingYet(b: Bucket, n: int)
    requires b.bytesPerSec > 0
    ensures ShortAt(b, n, []) && RefillAll(b, []) == b
  {
  }

  lemma WaitIsPositive(b: Bucket, n: int)
    requires b.bytesPerSec > 0
    ensures WaitTime(b, n) >= MILLISECOND
  {
  }

  lemma ExtendShort(b: Bucket, n: int, times: seq<int>, t: int)
    requires b.bytesPerSec > 0 && ShortAt(b, n, times) && RefillAll(b, times).bytesPerSec > 0
    requires |times| > 0 ==> times[|times| - 1] + WaitTime(RefillAll(b, times), n) <= t
    requires Refill(RefillAll(b, times), t).tokens < n
    ensures ShortAt(b, n, times + [t])
    ensures RefillAll(b, times + [t]) == Refill(RefillAll(b, times), t)
  {
    hide Refill, WaitTime, RefillAll, After;
    var all := times + [t];
    LastRefill(b, times, t);
    AfterLast(b, all);
    forall i | 0 <= i < |all|
      ensures After(b, all, i).tokens < n
    {
      if i < |times| {
        AfterStable(b, times, t, i);
      }
    }
    forall i | 0 <= i < |all| - 1
      ensures Slept(b, n, all, i)
    {
      AfterStable(b, times, t, i);
      if i < |times| - 1 {
        assert Slept(b, n, times, i);
      } else {
        AfterLast(b, times);
      }
    }
  }

  lemma AfterStable(b: Bucket, times: seq<int>, t: int, i: nat)
    requires i < |times|
    ensures After(b, times + [t], i) == After(b, times, i)
  {
    assert (times + [t])[..i + 1] == times[..i + 1];
  }

  lemma AfterLast(b: Bucket, times: seq<int>)
    requires times != []
    ensures After(b, times, |times| - 1) == RefillAll(b, times)
  {
    assert times[..|times|] == times;
  }

  lemma LastRefill(b: Bucket, times: seq<int>, t: int)
    ensures RefillAll(b, times + [t]) == Refill(RefillAll(b, times), t)
  {
    var all := times + [t];
    assert all[..|all| - 1] == times;
  }

  // Changing the rate

  function RateSet(b: Bucket, rate: int): Bucket {
    if rate <= 0 then b.(enabled := false) else b.(bytesPerSec := rate, maxBurst := rate, enabled := true)
  }

  /** SetRate does not touch the tokens, so a bucket stays within its burst size exactly when the new
      rate is not below the tokens it holds. */
  lemma RateChangeKeepsRange(b: Bucket, rate: int)
    requires Sound(b) && rate > 0
    ensures Sound(RateSet(b, rate)) <==> rate >= b.tokens
  {
  }

  /** What the callers can get after a change of rate: the surplus counts once. */
  lemma GrantedAfterRateChange(b: Bucket, rate: int, tries: seq<Try>, t: int, lo: int, hi: int)
    requires Live(b) && rate > 0 && b.lastRefill <= t && Ordered(tries, t) && lo <= hi
    ensures var most := if b.tokens > rate then b.tokens else rate;
            Granted(RateSet(b, rate), tries, lo, hi) * SECOND < (most + 1) * SECOND + (hi - lo) * rate
  {
    GrantedIsBounded(RateSet(b, rate), tries, t, lo, hi);
  }

  /** Until the next whole token is earned the old surplus can still be spent: more than the new
      burst size, in one request. */
  lemma LoweredRateOverspends()
    ensures var b := RateSet(Bucket(1000, 1000, 1000, 0, true), 10);
            b.maxBurst == 10 && Grants(b, Try(1000, 0))
  {
  }
}
