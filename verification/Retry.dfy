/** Retry delays and the HTTP step's retry loop. Durations are signed 64-bit. */
module Retry {
  import opened Common
  import opened Int64

  datatype Backoff = Fixed | Linear | Exponential

  datatype RetryPolicy = RetryPolicy(
    maxRetries: nat,
    backoff: Backoff,
    initialDelay: Option<int>,
    maxDelay: Option<int>)

  function Pow2(n: nat): (r: nat)
    ensures r >= 1
  {
    if n == 0 then 1 else 2 * Pow2(n - 1)
  }

  function Initial(p: RetryPolicy): int {
    if p.initialDelay.Some? then p.initialDelay.value else SECOND
  }

  /** The delay before the cap, as an unbounded integer. */
  function Product(p: RetryPolicy, attempt: nat): int
    requires attempt >= 1
  {
    match p.backoff
    case Exponential => Initial(p) * Pow2(attempt - 1)
    case Linear => Initial(p) * attempt
    case Fixed => Initial(p)
  }

  function Capped(p: RetryPolicy, d: int): int {
    if p.maxDelay.Some? && d > p.maxDelay.value then p.maxDelay.value else d
  }

  function Delay(policy: Option<RetryPolicy>, attempt: nat): int
    requires attempt >= 1
  {
    match policy
    case None => SECOND
    case Some(p) => if p.backoff.Fixed? then Initial(p) else Capped(p, Wrap(Product(p, attempt)))
  }

  lemma {:induction false} Doubled(initial: int, i: nat)
    requires i >= 1
    ensures Wrap(2 * Wrap(initial * Pow2(i - 1))) == Wrap(initial * Pow2(i))
  {
    hide Wrap;
    var n := initial * Pow2(i - 1);
    WrapStep(2, n, 0);
    assert 2 * n == initial * (2 * Pow2(i - 1));
  }

  method RetryDelay(policy: Option<RetryPolicy>, attempt: nat) returns (d: int)
    requires attempt >= 1
    requires policy.Some? ==> -MAX64 - 1 <= Initial(policy.value) <= MAX64
    ensures d == Delay(policy, attempt)
  {
    hide Wrap;
    if policy.None? { return SECOND; }
    var p := policy.value;
    match p.backoff {
      case Exponential =>
        d := Initial(p);
        WrapUnique(d, d);
        for i := 1 to attempt
          invariant d == Wrap(Initial(p) * Pow2(i - 1))
        {
          Doubled(Initial(p), i);
          d := Wrap(2 * d);
        }
        d := if p.maxDelay.Some? && d > p.maxDelay.value then p.maxDelay.value else d;
      case Linear =>
        d := Wrap(Initial(p) * attempt);
        d := if p.maxDelay.Some? && d > p.maxDelay.value then p.maxDelay.value else d;
      case Fixed => d := Initial(p);
    }
  }

  lemma {:induction false} Pow2Monotone(m: nat, n: nat)
    requires m <= n
    ensures Pow2(m) <= Pow2(n)
    decreases n - m
  {
    if m < n { Pow2Monotone(m, n - 1); }
  }

  lemma {:induction false} ProductMonotone(p: RetryPolicy, a: nat, b: nat)
    requires Initial(p) >= 0 && 1 <= a <= b
    ensures 0 <= Product(p, a) <= Product(p, b)
  {
    Pow2Monotone(a - 1, b - 1);
    Scale(Initial(p), Pow2(a - 1), Pow2(b - 1));
    Scale(Initial(p), a, b);
  }

  lemma {:induction false} Scale(k: int, x: int, y: int)
    requires k >= 0 && 0 <= x <= y
    ensures 0 <= k * x <= k * y
  {}

  /** While the uncapped product fits in a duration, the delay is that product cut at
      MaxDelay, and it never falls from one attempt to a later one. */
  lemma {:induction false} DelayIsCappedProduct(p: RetryPolicy, a: nat, b: nat)
    requires Initial(p) >= 0 && 1 <= a <= b && Product(p, b) <= MAX64 && !p.backoff.Fixed?
    ensures Delay(Some(p), b) == Capped(p, Product(p, b))
    ensures Delay(Some(p), a) <= Delay(Some(p), b)
  {
    ProductMonotone(p, a, b);
    WrapUnique(Product(p, a), Product(p, a));
    WrapUnique(Product(p, b), Product(p, b));
  }

  /** The product in the policy's own terms: a second if no initial delay is given; as it
      is for a fixed policy, times the attempt for a linear one, and doubled from one attempt
      to the next for an exponential one. */
  lemma {:induction false} ProductIs(p: RetryPolicy, attempt: nat)
    requires attempt >= 1
    ensures var initial := if p.initialDelay.Some? then p.initialDelay.value else 1_000_000_000;
      && (p.backoff.Fixed? ==> Product(p, attempt) == initial)
      && (p.backoff.Linear? ==> Product(p, attempt) == initial * attempt)
      && (p.backoff.Exponential? ==>
            Product(p, 1) == initial && Product(p, attempt + 1) == 2 * Product(p, attempt))
    ensures Delay(None, attempt) == 1_000_000_000
    ensures p.backoff.Fixed? ==> Delay(Some(p), attempt) == Product(p, attempt)
  {}

  /** Without MaxDelay the delay is the product if and only if the product fits. */
  lemma {:induction false} UncappedIffFits(p: RetryPolicy, attempt: nat)
    requires Initial(p) >= 0 && attempt >= 1 && !p.backoff.Fixed? && p.maxDelay.None?
    ensures Delay(Some(p), attempt) == Product(p, attempt) <==> Product(p, attempt) <= MAX64
  {
    if Product(p, attempt) <= MAX64 { DelayIsCappedProduct(p, attempt, attempt); }
  }

  /** With MaxDelay it is the product cut there if and only if the product fits or its
      wrapped value is not below MaxDelay either. */
  lemma {:induction false} CappedIffFitsOrAbove(p: RetryPolicy, attempt: nat)
    requires Initial(p) >= 0 && attempt >= 1 && !p.backoff.Fixed?
    requires p.maxDelay.Some? && 0 <= p.maxDelay.value <= MAX64
    ensures Delay(Some(p), attempt) == Capped(p, Product(p, attempt)) <==>
      Product(p, attempt) <= MAX64 || Wrap(Product(p, attempt)) >= p.maxDelay.value
  {
    if Product(p, attempt) <= MAX64 { DelayIsCappedProduct(p, attempt, attempt); }
  }

  /** Linear and exponential delays never exceed MaxDelay, whatever the overflow; a
      fixed delay ignores it. */
  lemma {:induction false} DelayWithinMax(p: RetryPolicy, attempt: nat)
    requires attempt >= 1 && p.maxDelay.Some?
    ensures Delay(Some(p), attempt) <= p.maxDelay.value <==> !p.backoff.Fixed? || Initial(p) <= p.maxDelay.value
  {}

  lemma {:induction false} Pow2Splits(n: nat)
    requires n >= 64
    ensures Pow2(n) == Pow2(n - 64) * TWO64
  {
    if n == 64 {
      Pow64();
    } else {
      Pow2Splits(n - 1);
    }
  }

  lemma {:induction false} Pow64()
    ensures Pow2(64) == TWO64
  {
    assert Pow2(8) == 256;
    assert Pow2(16) == 65536;
    assert Pow2(24) == 16777216;
    assert Pow2(32) == 4294967296;
    assert Pow2(40) == 1099511627776;
    assert Pow2(48) == 281474976710656;
    assert Pow2(56) == 72057594037927936;
  }

  /** From the 65th retry on every bit of the initial delay has been shifted out: an
      exponential policy waits no time at all. */
  lemma {:induction false} ExponentialDelayCollapses(p: RetryPolicy, attempt: nat)
    requires p.backoff.Exponential? && attempt >= 65 && (p.maxDelay.Some? ==> p.maxDelay.value >= 0)
    ensures Delay(Some(p), attempt) == 0
  {
    Pow2Splits(attempt - 1);
    assert Product(p, attempt) == Initial(p) * Pow2(attempt - 65) * TWO64;
    var k := Initial(p) * Pow2(attempt - 65);
    WrapMultiple(-k);
    assert (0 - k * TWO64) % TWO64 == 0;
    WrapUnique(0, k * TWO64);
  }

  // ---- The retry loop ----

  /** CutShort: the context expired while waiting before the attempt, after that long. */
  datatype Attempt = Success | Retryable | Unreachable | CutShort(waited: nat)

  /** What is slept before an attempt that comes to this. */
  function Waited(a: Attempt, delay: int): int {
    if a.CutShort? && a.waited < delay then a.waited else delay
  }

  function MaxAttempts(policy: Option<RetryPolicy>): nat {
    if policy.Some? then policy.value.maxRetries + 1 else 1
  }

  /** The delays before attempts 2 to n. */
  function TotalDelay(policy: Option<RetryPolicy>, n: nat): int {
    if n <= 1 then 0 else TotalDelay(policy, n - 1) + Delay(policy, n - 1)
  }

  /** The longest single delay: MaxDelay for a capped policy that looks at it, the initial
      delay for a fixed one, and the largest duration for the rest. */
  function LongestDelay(policy: Option<RetryPolicy>): int {
    match policy
    case None => SECOND
    case Some(p) =>
      if p.backoff.Fixed? then Initial(p) else if p.maxDelay.Some? then p.maxDelay.value else MAX64
  }

  /** The whole sleep is bounded for every policy, whatever overflows; a fixed policy
      sleeps exactly its bound. */
  lemma {:induction false} TotalDelayBound(policy: Option<RetryPolicy>, n: nat)
    requires n >= 1
    ensures TotalDelay(policy, n) <= (n - 1) * LongestDelay(policy)
    ensures policy.None? || policy.value.backoff.Fixed? ==> TotalDelay(policy, n) == (n - 1) * LongestDelay(policy)
  {
    if n > 1 {
      TotalDelayBound(policy, n - 1);
      assert Delay(policy, n - 1) <= LongestDelay(policy);
      assert (n - 1) * LongestDelay(policy) == (n - 2) * LongestDelay(policy) + LongestDelay(policy);
    }
  }

  predicate AllRetryable(outcome: nat -> Attempt, n: nat) {
    forall i | 0 <= i < n :: outcome(i) == Retryable
  }

  /** At most MaxRetries + 1 attempts, stopping at the first success, unreachable
      executor or expired context; what is slept in between is the sum of the delays, the
      last of them cut short if the context expires in it. */
  method RunAttempts(policy: Option<RetryPolicy>, outcome: nat -> Attempt)
    returns (attempts: nat, slept: int, last: Attempt)
    requires policy.Some? ==> -MAX64 - 1 <= Initial(policy.value) <= MAX64
    ensures 1 <= attempts <= MaxAttempts(policy)
    ensures AllRetryable(outcome, attempts - 1) && last == outcome(attempts - 1)
    ensures last == Retryable ==> attempts == MaxAttempts(policy)
    ensures slept == if attempts == 1 then 0
      else TotalDelay(policy, attempts - 1) + Waited(last, Delay(policy, attempts - 1))
    ensures !last.CutShort? ==> slept == TotalDelay(policy, attempts)
    ensures slept <= TotalDelay(policy, attempts) && slept <= (attempts - 1) * LongestDelay(policy)
  {
    attempts, slept, last := 0, 0, Retryable;
    while attempts < MaxAttempts(policy)
      invariant attempts <= MaxAttempts(policy)
      invariant attempts > 0 ==> last == Retryable
      invariant AllRetryable(outcome, attempts)
      invariant slept == TotalDelay(policy, attempts)
    {
      var attempt := attempts;
      attempts := attempts + 1;
      if attempt > 0 {
        var delay := RetryDelay(policy, attempt);
        slept := slept + Waited(outcome(attempt), delay);
      }
      last := outcome(attempt);
      if last != Retryable { break; }
    }
    TotalDelayBound(policy, attempts);
  }
}
