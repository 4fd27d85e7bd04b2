/** Retry policies: the rules that make a configured policy usable, and the delay before a retry. */
module RetryRules {
  import opened Types

  const INT32_MAX := 0x7fff_ffff
  const INT32_SPAN := 0x1_0000_0000

  predicate KnownBackoff(b: string) {
    b == "exponential" || b == "linear" || b == "fixed"
  }

  /** What calculate_backoff_delay relies on. */
  predicate Sound(p: RetryPolicy) {
    p.limit >= 0 && KnownBackoff(p.backoff) && 0 < p.initialDelaySec <= p.maxDelaySec
  }

  predicate SoundPolicy(p: QueuePolicy) {
    p.visibilityTimeoutSec > 0 && Sound(p.retry) && p.dlq.retentionDays > 0
  }

  /** The policy a configured one is corrected to. */
  function Corrected(p: RetryPolicy): (r: RetryPolicy)
    ensures Sound(r)
    ensures Sound(p) ==> r == p
  {
    var initial := if p.initialDelaySec <= 0 then 1 else p.initialDelaySec;
    var cap := if p.maxDelaySec <= 0 then 60 else p.maxDelaySec;
    RetryPolicy(
      Max(p.limit, 0),
      if KnownBackoff(p.backoff) then p.backoff else "exponential",
      Min(initial, cap),
      Max(initial, cap))
  }

  function CorrectedPolicy(p: QueuePolicy): (r: QueuePolicy)
    ensures SoundPolicy(r)
    ensures SoundPolicy(p) ==> r == p
  {
    QueuePolicy(
      if p.visibilityTimeoutSec <= 0 then 30 else p.visibilityTimeoutSec,
      Corrected(p.retry),
      p.dlq.(retentionDays := if p.dlq.retentionDays <= 0 then 14 else p.dlq.retentionDays))
  }

  datatype QueueConfig = QueueConfig(name: string, policy: QueuePolicy)

  /** The part of the daemon's configuration that validation overwrites. */
  class Configurations {
    var leaseVisibilityTimeoutSec: int
    var leaseSweepIntervalMs: int
    var policyDefaults: QueuePolicy
    var queues: seq<QueueConfig>

    constructor (leaseVisibilityTimeoutSec: int, leaseSweepIntervalMs: int, policyDefaults: QueuePolicy,
                 queues: seq<QueueConfig>)
      ensures this.leaseVisibilityTimeoutSec == leaseVisibilityTimeoutSec
      ensures this.leaseSweepIntervalMs == leaseSweepIntervalMs
      ensures this.policyDefaults == policyDefaults && this.queues == queues
    {
      this.leaseVisibilityTimeoutSec, this.leaseSweepIntervalMs := leaseVisibilityTimeoutSec, leaseSweepIntervalMs;
      this.policyDefaults, this.queues := policyDefaults, queues;
    }

    static method ValidateRetryPolicy(configured: RetryPolicy) returns (policy: RetryPolicy)
      ensures 0 < policy.initialDelaySec <= policy.maxDelaySec && policy.limit >= 0
      ensures policy.backoff in {"exponential", "linear", "fixed"}
      ensures policy == Corrected(configured)
      ensures configured.limit >= 0 ==> policy.limit == configured.limit
      ensures configured.backoff in {"exponential", "linear", "fixed"} ==> policy.backoff == configured.backoff
      ensures 0 < configured.initialDelaySec <= configured.maxDelaySec ==>
        policy.initialDelaySec == configured.initialDelaySec && policy.maxDelaySec == configured.maxDelaySec
      ensures 0 < configured.maxDelaySec < configured.initialDelaySec ==>
        policy.initialDelaySec == configured.maxDelaySec && policy.maxDelaySec == configured.initialDelaySec
    {
      policy := configured;
      if policy.limit < 0 {
        policy := policy.(limit := 0);
      }
      if !KnownBackoff(policy.backoff) {
        policy := policy.(backoff := "exponential");
      }
      if policy.initialDelaySec <= 0 {
        policy := policy.(initialDelaySec := 1);
      }
      if policy.maxDelaySec <= 0 {
        policy := policy.(maxDelaySec := 60);
      }
      if policy.maxDelaySec < policy.initialDelaySec {
        policy := policy.(maxDelaySec := policy.initialDelaySec, initialDelaySec := policy.maxDelaySec);
      }
    }

    static method ValidateQueuePolicy(configured: QueuePolicy) returns (policy: QueuePolicy)
      ensures SoundPolicy(policy)
      ensures policy == CorrectedPolicy(configured)
    {
      policy := configured;
      if policy.visibilityTimeoutSec <= 0 {
        policy := policy.(visibilityTimeoutSec := 30);
      }
      var retry := ValidateRetryPolicy(policy.retry);
      policy := policy.(retry := retry);
      if policy.dlq.retentionDays <= 0 {
        policy := policy.(dlq := policy.dlq.(retentionDays := 14));
      }
    }

    /** Corrects the lease settings, the defaults and every queue in place; names and order stay. */
    method Validate()
      modifies this
      ensures leaseVisibilityTimeoutSec ==
        if old(leaseVisibilityTimeoutSec) <= 0 then 30 else old(leaseVisibilityTimeoutSec)
      ensures leaseSweepIntervalMs == if old(leaseSweepIntervalMs) <= 0 then 1000 else old(leaseSweepIntervalMs)
      ensures policyDefaults == CorrectedPolicy(old(policyDefaults))
      ensures |queues| == |old(queues)|
      ensures forall i :: 0 <= i < |queues| ==>
        queues[i] == QueueConfig(old(queues)[i].name, CorrectedPolicy(old(queues)[i].policy))
    {
      if leaseVisibilityTimeoutSec <= 0 {
        leaseVisibilityTimeoutSec := 30;
      }
      if leaseSweepIntervalMs <= 0 {
        leaseSweepIntervalMs := 1000;
      }
      policyDefaults := ValidateQueuePolicy(policyDefaults);
      var i := 0;
      ghost var visibility, interval := leaseVisibilityTimeoutSec, leaseSweepIntervalMs;
      while i < |queues|
        invariant leaseVisibilityTimeoutSec == visibility && leaseSweepIntervalMs == interval
        invariant 0 <= i <= |queues| == |old(queues)|
        invariant policyDefaults == CorrectedPolicy(old(policyDefaults))
        invariant forall j :: 0 <= j < i ==>
          queues[j] == QueueConfig(old(queues)[j].name, CorrectedPolicy(old(queues)[j].policy))
        invariant forall j :: i <= j < |queues| ==> queues[j] == old(queues)[j]
      {
        var policy := ValidateQueuePolicy(queues[i].policy);
        queues := queues[i := queues[i].(policy := policy)];
        i := i + 1;
      }
    }
  }

  /** What the values out of range are replaced by. */
  lemma DefaultsAre(p: QueuePolicy)
    ensures
      var c := CorrectedPolicy(p);
      && (p.visibilityTimeoutSec <= 0 ==> c.visibilityTimeoutSec == 30)
      && (p.visibilityTimeoutSec > 0 ==> c.visibilityTimeoutSec == p.visibilityTimeoutSec)
      && (p.dlq.retentionDays <= 0 ==> c.dlq.retentionDays == 14)
      && (p.dlq.retentionDays > 0 ==> c.dlq.retentionDays == p.dlq.retentionDays)
      && c.dlq.enabled == p.dlq.enabled && c.dlq.queue == p.dlq.queue
      && (p.retry.limit < 0 ==> c.retry.limit == 0)
      && (p.retry.backoff !in {"exponential", "linear", "fixed"} ==> c.retry.backoff == "exponential")
      && (p.retry.initialDelaySec <= 0 && p.retry.maxDelaySec <= 0 ==>
            c.retry.initialDelaySec == 1 && c.retry.maxDelaySec == 60)
      && (p.retry.initialDelaySec <= 0 && p.retry.maxDelaySec > 0 ==>
            c.retry.initialDelaySec == 1 && c.retry.maxDelaySec == p.retry.maxDelaySec)
      && (0 < p.retry.initialDelaySec <= 60 && p.retry.maxDelaySec <= 0 ==>
            c.retry.initialDelaySec == p.retry.initialDelaySec && c.retry.maxDelaySec == 60)
      && (p.retry.initialDelaySec > 60 && p.retry.maxDelaySec <= 0 ==>
            c.retry.initialDelaySec == 60 && c.retry.maxDelaySec == p.retry.initialDelaySec)
  {
  }

  /** Validating twice changes nothing more, and every configured queue ends up sound. */
  lemma CorrectionIsIdempotent(p: QueuePolicy)
    ensures CorrectedPolicy(CorrectedPolicy(p)) == CorrectedPolicy(p)
    ensures Sound(CorrectedPolicy(p).retry)
    ensures CorrectedPolicy(p).retry.initialDelaySec > 0
    ensures CorrectedPolicy(p) == p <==> SoundPolicy(p)
  {
  }

  function Pow2(n: nat): (r: nat)
    ensures r >= 1
  {
    if n == 0 then 1 else 2 * Pow2(n - 1)
  }

  /** Division that drops the fraction, as a conversion from double to integer does. */
  function TruncDiv(a: int, b: int): int
    requires b > 0
  {
    if a >= 0 then a / b else -((-a) / b)
  }

  /** Two's complement reading of a 32-bit product. */
  function Wrap32(x: int): int {
    (x + INT32_MAX + 1) % INT32_SPAN - INT32_MAX - 1
  }

  /** Delay in milliseconds before the next attempt. The exponential form is exact: its factor is
      a power of two. A negative exponent (attempt below 1) halves instead of doubling. */
  function BackoffDelay(attempt: int, p: RetryPolicy): int {
    if p.backoff == "exponential" then
      if attempt >= 1 then Min(p.initialDelaySec * Pow2(attempt - 1), p.maxDelaySec) * 1000
      else Min(TruncDiv(p.initialDelaySec * 1000, Pow2(1 - attempt)), p.maxDelaySec * 1000)
    else if p.backoff == "linear" then
      Min(Wrap32(p.initialDelaySec * attempt), p.maxDelaySec) * 1000
    else
      p.initialDelaySec * 1000
  }

  /** What the sweeper does with an expired lease. */
  datatype Decision = Retry(delayMs: int) | Bury | Keep

  /** Without a policy the message is released at once; below the limit it waits for its backoff; at or over the
      limit it is buried, or left alone when the DLQ is off. */
  function Decide(attempt: int, policy: Option<QueuePolicy>): Decision {
    match policy
    case None => Retry(0)
    case Some(p) =>
      if attempt < p.retry.limit then Retry(BackoffDelay(attempt, p.retry))
      else if p.dlq.enabled then Bury
      else Keep
  }

  function Digits(n: nat): string {
    var digit := ["0123456789"[n % 10]];
    if n < 10 then digit else Digits(n / 10) + digit
  }

  function LimitReason(attempt: int): string {
    "retry limit exceeded (attempt " + (if attempt < 0 then "-" + Digits(-attempt) else Digits(attempt)) + ")"
  }

  /** Some policy with the DLQ on and the given limit. */
  function Limited(limit: int): QueuePolicy {
    QueuePolicy(30, RetryPolicy(limit, "fixed", 1, 1), DlqPolicy(true, "", 14))
  }

  /** The number a text of decimal digits stands for. */
  function ValueOf(s: string): int {
    if s == "" then 0 else 10 * ValueOf(s[..|s| - 1]) + (s[|s| - 1] as int - '0' as int)
  }

  /** Digits is the decimal notation: only digits, no leading zero, and the right value. */
  lemma {:induction false} DigitsAreDecimal(n: nat)
    ensures var s := Digits(n);
            && ValueOf(s) == n && |s| > 0 && (|s| > 1 ==> s[0] != '0')
            && forall i :: 0 <= i < |s| ==> '0' <= s[i] <= '9'
  {
    if n >= 10 {
      DigitsAreDecimal(n / 10);
    }
  }

  predicate LinearFits(p: RetryPolicy, attempt: int) {
    p.backoff == "linear" ==> p.initialDelaySec * attempt <= INT32_MAX
  }

  predicate DelayInRange(p: RetryPolicy, attempt: int) {
    p.initialDelaySec * 1000 <= BackoffDelay(attempt, p) <= p.maxDelaySec * 1000
  }

  lemma Wrap32Small(x: int)
    requires 0 <= x <= INT32_MAX
    ensures Wrap32(x) == x
  {
  }

  lemma {:induction false} Pow2Doubles(i: nat, j: nat, x: nat)
    requires i <= j
    ensures x * Pow2(i) <= x * Pow2(j)
    decreases j
  {
    if i < j {
      Pow2Doubles(i, j - 1, x);
      assert x * Pow2(j) == 2 * (x * Pow2(j - 1));
    }
  }

  lemma LinearFitsEarlier(p: RetryPolicy, a: int, b: int)
    requires p.initialDelaySec >= 0 && a <= b && LinearFits(p, b)
    ensures LinearFits(p, a)
  {
    assert p.initialDelaySec * a <= p.initialDelaySec * b;
  }

  /** Exponential backoff: the first retry waits the initial delay, each later one twice as long until the maximum is
      reached, and each step to an attempt below one halves the delay, without its fraction. */
  lemma {:induction false} ExponentialDoubles(p: RetryPolicy, attempt: int)
    requires Sound(p) && p.backoff == "exponential"
    ensures BackoffDelay(1, p) == p.initialDelaySec * 1000
    ensures attempt >= 1 ==>
      var twice := 2 * BackoffDelay(attempt, p);
      BackoffDelay(attempt + 1, p) == if twice <= p.maxDelaySec * 1000 then twice else p.maxDelaySec * 1000
    ensures attempt <= 1 ==> BackoffDelay(attempt - 1, p) == BackoffDelay(attempt, p) / 2
  {
    assert Pow2(0) == 1;
    if attempt >= 1 {
      assert p.initialDelaySec * Pow2(attempt) == 2 * (p.initialDelaySec * Pow2(attempt - 1));
    } else {
      HalvesTwice(p.initialDelaySec * 1000, Pow2(1 - attempt));
      SmallHalves(p, 1 - attempt);
      SmallHalves(p, 2 - attempt);
    }
    SmallHalves(p, 1);
  }

  lemma HalvesTwice(x: nat, y: int)
    requires y > 0
    ensures x / (2 * y) == x / y / 2
  {
    var q, r := x / y, x % y;
    assert x == q * y + r;
    if q % 2 == 0 {
      Regroup(q / 2, y, q, r);
      QuotientIs(x, 2 * y, q / 2, r);
    } else {
      Regroup(q / 2, y, q - 1, y + r);
      QuotientIs(x, 2 * y, q / 2, y + r);
    }
  }

  lemma Regroup(h: int, y: int, q: int, r: int)
    requires q == 2 * h
    ensures h * (2 * y) + r == q * y + r
  {
  }

  lemma QuotientIs(x: int, y: int, q: int, r: int)
    requires y > 0 && x == q * y + r && 0 <= r < y
    ensures x / y == q
  {
    var d := x / y - q;
    assert d * y == r - x % y;
    assert d >= 1 ==> d * y >= y;
    assert d <= -1 ==> d * y <= -y;
  }

  /** Halved delays stay under the maximum. */
  lemma SmallHalves(p: RetryPolicy, n: nat)
    requires Sound(p)
    ensures TruncDiv(p.initialDelaySec * 1000, Pow2(n)) == p.initialDelaySec * 1000 / Pow2(n)
    ensures p.initialDelaySec * 1000 / Pow2(n) <= p.maxDelaySec * 1000
  {
    hide Pow2;
    QuotientIsSmaller(p.initialDelaySec * 1000, Pow2(n));
  }

  lemma QuotientIsSmaller(x: nat, y: int)
    requires y >= 1
    ensures x / y <= x
  {
    PartIsSmaller(x, y, x / y, x % y);
  }

  lemma PartIsSmaller(x: nat, y: int, q: int, r: nat)
    requires y >= 1 && x == q * y + r && r < y
    ensures q <= x
  {
    assert q >= 0 ==> q * y >= q;
  }

  /** Linear backoff, while its product fits 32 bits, is the initial delay times the attempt, at most the maximum;
      fixed backoff is always the initial delay. */
  lemma LinearAndFixedAre(p: RetryPolicy, attempt: int)
    requires Sound(p)
    ensures p.backoff == "linear" && -0x8000_0000 <= p.initialDelaySec * attempt < 0x8000_0000 ==>
      BackoffDelay(attempt, p) ==
        if p.initialDelaySec * attempt <= p.maxDelaySec then p.initialDelaySec * attempt * 1000
        else p.maxDelaySec * 1000
    ensures p.backoff == "fixed" ==> BackoffDelay(attempt, p) == p.initialDelaySec * 1000
  {
    if p.backoff == "linear" && -0x8000_0000 <= p.initialDelaySec * attempt < 0x8000_0000 {
      var product := p.initialDelaySec * attempt;
      assert Wrap32(product) == product;
    }
  }

  /** The reason names the attempt. */
  lemma ReasonExample()
    ensures LimitReason(13) == "retry limit exceeded (attempt 13)"
    ensures LimitReason(-2) == "retry limit exceeded (attempt -2)"
  {
    assert Digits(13) == Digits(1) + "3";
  }

  /** Backoff bounds: in all three modes the delay stays between the initial and the maximal delay. */
  lemma BackoffInRange(p: RetryPolicy, attempt: int)
    requires Sound(p) && attempt >= 1 && (p.backoff == "linear" ==> p.initialDelaySec * attempt <= 0x7fff_ffff)
    ensures p.initialDelaySec * 1000 <= BackoffDelay(attempt, p) <= p.maxDelaySec * 1000
  {
    if p.backoff == "exponential" {
      Pow2Doubles(0, attempt - 1, p.initialDelaySec);
    } else if p.backoff == "linear" {
      hide Wrap32;
      assert p.initialDelaySec <= p.initialDelaySec * attempt;
      Wrap32Small(p.initialDelaySec * attempt);
    }
  }

  /** Backoff never shrinks from one attempt to a later one. */
  lemma BackoffMonotone(p: RetryPolicy, a: int, b: int)
    requires Sound(p) && 1 <= a <= b && (p.backoff == "linear" ==> p.initialDelaySec * b <= 0x7fff_ffff)
    ensures BackoffDelay(a, p) <= BackoffDelay(b, p)
  {
    Pow2Doubles(a - 1, b - 1, p.initialDelaySec);
    if p.backoff == "linear" {
      assert 0 <= p.initialDelaySec * a <= p.initialDelaySec * b;
      Wrap32Small(p.initialDelaySec * a);
      Wrap32Small(p.initialDelaySec * b);
    }
  }

  /** The first attempt whose linear product leaves 32 bits gets a negative delay. */
  lemma LinearOverflowIsNegative(p: RetryPolicy, attempt: int)
    requires Sound(p) && p.maxDelaySec <= INT32_MAX && p.backoff == "linear" && attempt >= 1
    requires p.initialDelaySec * (attempt - 1) <= 0x7fff_ffff < p.initialDelaySec * attempt
    ensures BackoffDelay(attempt, p) < 0
  {
  }

  /** The smallest case: two attempts of 2^30 seconds wrap around to -2^31. */
  lemma LinearOverflowExample()
    ensures var p := RetryPolicy(5, "linear", 0x4000_0000, 0x4000_0000);
            Sound(p) && BackoffDelay(1, p) == 0x4000_0000 * 1000 && BackoffDelay(2, p) == -0x8000_0000 * 1000
  {
    assert Wrap32(0x8000_0000) == -0x8000_0000;
  }

  /** Exactly when a linear policy keeps its promise up to attempt n: the product for n fits 32 bits. */
  lemma {:induction false} LinearInRangeIff(p: RetryPolicy, n: nat)
    requires Sound(p) && p.maxDelaySec <= INT32_MAX && p.backoff == "linear" && n >= 1
    ensures (forall a :: 1 <= a <= n ==> DelayInRange(p, a)) <==> p.initialDelaySec * n <= 0x7fff_ffff
    decreases n
  {
    if LinearFits(p, n) {
      forall a | 1 <= a <= n
        ensures DelayInRange(p, a)
      {
        LinearFitsEarlier(p, a, n);
        BackoffInRange(p, a);
      }
    } else if n == 1 || LinearFits(p, n - 1) {
      LinearOverflowIsNegative(p, n);
      assert !DelayInRange(p, n);
    } else {
      LinearInRangeIff(p, n - 1);
    }
  }
}
