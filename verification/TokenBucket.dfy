/** The token-bucket rate limiter: one shard, its buckets and its eviction.  Times and
    durations are real numbers of seconds. */
module TokenBucket {
  import opened FiniteSets
  import opened OldestFirst

  const MAX_ENTRIES: nat := 500_000
  const SHARDS: nat := 256
  const MAX_PER_SHARD: nat := MAX_ENTRIES / SHARDS
  const BUCKET_TTL := 600.0
  const MIN_REFILL := 0.01

  datatype Bucket = Bucket(tokens: real, capacity: real, refillRate: real, lastRefill: real, lastAccess: real)

  function Min(a: real, b: real): real {
    if a < b then a else b
  }

  function Fresh(capacity: real, rate: real, now: real): Bucket {
    Bucket(capacity, capacity, rate, now, now)
  }

  /** Access, new limits if they changed, and the refill. */
  function Refilled(b: Bucket, capacity: real, rate: real, now: real): Bucket {
    var b1 := b.(lastAccess := now);
    var b2 := if b1.capacity != capacity || b1.refillRate != rate
              then b1.(capacity := capacity, refillRate := rate, tokens := Min(b1.tokens, capacity))
              else b1;
    var elapsed := now - b2.lastRefill;
    if elapsed >= MIN_REFILL
    then b2.(tokens := Min(b2.capacity, b2.tokens + elapsed * b2.refillRate), lastRefill := now)
    else b2
  }

  function Take(b: Bucket): (Bucket, bool) {
    if b.tokens >= 1.0 then (b.(tokens := b.tokens - 1.0), true) else (b, false)
  }

  function Touch(b: Bucket, capacity: real, rate: real, now: real): (Bucket, bool) {
    Take(Refilled(b, capacity, rate, now))
  }

  function LastAccess(b: Bucket): real {
    b.lastAccess
  }

  class RateLimitShard {
    var buckets: map<string, Bucket>

    /** Holds over any run of `Allow` and `Cleanup` with non-empty keys. */
    ghost predicate Bounded()
      reads this
    {
      |buckets| <= MAX_PER_SHARD && "" !in buckets
    }

    constructor ()
      ensures Bounded() && buckets == map[]
    {
      buckets := map[];
    }

    method EvictShard()
      modifies this
      ensures OldestRemoved(old(buckets), buckets, LastAccess)
      ensures "" !in old(buckets) ==>
                var n := |old(buckets)|; |buckets| == if n < MAX_PER_SHARD / 10 then 0 else n - MAX_PER_SHARD / 10
    {
      var evictCount := MAX_PER_SHARD / 10;
      if evictCount < 1 {
        evictCount := 1;
      }
      buckets := EvictOldest(buckets, evictCount, LastAccess);
    }

    /** A bucket for a new key; a full shard makes room first. */
    method AddBucket(key: string, b: Bucket)
      requires key !in buckets
      modifies this
      ensures key in buckets && buckets[key] == b
      ensures OldestRemoved(old(buckets), buckets - {key}, LastAccess)
      ensures |old(buckets)| < MAX_PER_SHARD ==> buckets - {key} == old(buckets)
      ensures old(Bounded()) && key != "" ==> Bounded()
    {
      if |buckets| >= MAX_PER_SHARD {
        EvictShard();
      }
      ghost var kept := buckets;
      buckets := buckets[key := b];
      assert buckets - {key} == kept && buckets.Keys == kept.Keys + {key};
    }

    method Allow(key: string, capacity: int, rate: real, now: real) returns (allowed: bool)
      modifies this
      ensures key in old(buckets) ==>
                var (b, ok) := Touch(old(buckets)[key], capacity as real, rate, now);
                buckets == old(buckets)[key := b] && allowed == ok
      ensures key !in old(buckets) ==>
                var (b, ok) := Touch(Fresh(capacity as real, rate, now), capacity as real, rate, now);
                && key in buckets && buckets[key] == b && allowed == ok
                && OldestRemoved(old(buckets), buckets - {key}, LastAccess)
                && (|old(buckets)| < MAX_PER_SHARD ==> buckets - {key} == old(buckets))
      ensures old(Bounded()) && key != "" ==> Bounded()
    {
      if key !in buckets {
        AddBucket(key, Fresh(capacity as real, rate, now));
      }
      ghost var middle := buckets;
      var (b, ok) := Touch(buckets[key], capacity as real, rate, now);
      buckets := buckets[key := b];
      assert buckets - {key} == middle - {key} && buckets.Keys == middle.Keys;
      allowed := ok;
    }

    method Cleanup(now: real)
      modifies this
      ensures buckets == map k | k in old(buckets) && now - old(buckets)[k].lastAccess <= BUCKET_TTL :: old(buckets)[k]
      ensures old(Bounded()) ==> Bounded()
    {
      var before := buckets;
      buckets := map k | k in before && now - before[k].lastAccess <= BUCKET_TTL :: before[k];
      SubsetSize(buckets.Keys, before.Keys);
    }
  }

  // ----- runs of one bucket with fixed limits -----

  /** The bucket was made for these limits and its tokens are within them. */
  predicate Fits(b: Bucket, capacity: real, rate: real) {
    b.capacity == capacity && b.refillRate == rate && 0.0 <= b.tokens <= capacity && b.lastRefill <= b.lastAccess
  }

  /** Non-decreasing times, none before `start`. */
  ghost predicate Clock(times: seq<real>, start: real) {
    && (forall i | 0 <= i < |times| :: start <= times[i])
    && (forall i, j | 0 <= i < j < |times| :: times[i] <= times[j])
  }

  function Run(b: Bucket, times: seq<real>, capacity: real, rate: real): (Bucket, nat) {
    if times == [] then (b, 0)
    else
      var n := |times| - 1;
      var (b1, admitted) := Run(b, times[..n], capacity, rate);
      var (b2, ok) := Touch(b1, capacity, rate, times[n]);
      (b2, if ok then admitted + 1 else admitted)
  }

  lemma TouchKeepsFit(b: Bucket, capacity: real, rate: real, now: real)
    requires Fits(b, capacity, rate) && rate >= 0.0 && b.lastAccess <= now
    ensures var (b', ok) := Touch(b, capacity, rate, now);
            Fits(b', capacity, rate) && b'.lastAccess == now && b.lastRefill <= b'.lastRefill
    ensures now - Refilled(b, capacity, rate, now).lastRefill < MIN_REFILL
  {
    if now - b.lastRefill >= MIN_REFILL {
      MulNonNegative(now - b.lastRefill, rate);
    }
  }

  lemma MulNonNegative(a: real, b: real)
    requires a >= 0.0 && b >= 0.0
    ensures a * b >= 0.0
  {
  }

  lemma MulMonotone(a: real, b: real, c: real)
    requires a <= b && c >= 0.0
    ensures a * c <= b * c
  {
    MulNonNegative(b - a, c);
  }

  /** What a bucket may still spend, on the scale of all the time ever refilled. */
  function Credit(b: Bucket, rate: real): real {
    b.tokens - b.lastRefill * rate
  }

  function Count(ok: bool): real {
    if ok then 1.0 else 0.0
  }

  lemma RefillPays(b: Bucket, capacity: real, rate: real, now: real)
    requires Fits(b, capacity, rate) && rate >= 0.0 && b.lastAccess <= now
    ensures Credit(Refilled(b, capacity, rate, now), rate) <= Credit(b, rate)
  {
    var elapsed := now - b.lastRefill;
    MulDifference(now, b.lastRefill, rate);
  }

  /** A touch pays for what it admits. */
  lemma TouchPays(b: Bucket, capacity: real, rate: real, now: real)
    requires Fits(b, capacity, rate) && rate >= 0.0 && b.lastAccess <= now
    ensures var (b', ok) := Touch(b, capacity, rate, now); Count(ok) + Credit(b', rate) <= Credit(b, rate)
  {
    RefillPays(b, capacity, rate, now);
  }

  /** The tokens stay within the capacity over every run. */
  lemma {:induction false} TokensStayInRange(b: Bucket, times: seq<real>, capacity: real, rate: real)
    requires Fits(b, capacity, rate) && rate >= 0.0 && Clock(times, b.lastAccess)
    ensures var (b', _) := Run(b, times, capacity, rate);
            && Fits(b', capacity, rate)
            && b'.lastAccess == (if times == [] then b.lastAccess else times[|times| - 1])
            && b.lastRefill <= b'.lastRefill
  {
    if times != [] {
      var n := |times| - 1;
      TokensStayInRange(b, times[..n], capacity, rate);
      var (b1, _) := Run(b, times[..n], capacity, rate);
      TouchKeepsFit(b1, capacity, rate, times[n]);
    }
  }

  lemma {:induction false} RunPays(b: Bucket, times: seq<real>, capacity: real, rate: real)
    requires Fits(b, capacity, rate) && rate >= 0.0 && Clock(times, b.lastAccess)
    ensures var (b', admitted) := Run(b, times, capacity, rate);
            admitted as real + Credit(b', rate) <= Credit(b, rate)
  {
    if times != [] {
      var n := |times| - 1;
      RunPays(b, times[..n], capacity, rate);
      TokensStayInRange(b, times[..n], capacity, rate);
      var (b1, _) := Run(b, times[..n], capacity, rate);
      TouchPays(b1, capacity, rate, times[n]);
    }
  }

  lemma CreditSpent(b: Bucket, b': Bucket, rate: real, span: real, allowance: real)
    requires rate >= 0.0 && b'.tokens >= 0.0 && b'.lastRefill - b.lastRefill <= span && allowance == span * rate
    ensures Credit(b, rate) - Credit(b', rate) <= b.tokens + allowance
  {
    var before, after, d := b.lastRefill * rate, b'.lastRefill * rate, (b'.lastRefill - b.lastRefill) * rate;
    MulMonotone(b'.lastRefill - b.lastRefill, span, rate);
    MulDifference(b'.lastRefill, b.lastRefill, rate);
    SpentWithin(b.tokens, b'.tokens, before, after, d, allowance);
  }

  lemma SpentWithin(tokens: real, left: real, before: real, after: real, d: real, allowance: real)
    requires d == after - before && d <= allowance && left >= 0.0
    ensures (tokens - before) - (left - after) <= tokens + allowance
  {
  }

  lemma MulDifference(a: real, b: real, c: real)
    ensures (a - b) * c == a * c - b * c
  {
  }

  /** A run admits no more than the tokens it starts with and the refill of its span. */
  lemma RunAdmits(b: Bucket, times: seq<real>, capacity: real, rate: real, span: real, allowance: real)
    requires Fits(b, capacity, rate) && rate >= 0.0 && Clock(times, b.lastAccess)
    requires (if times == [] then b.lastAccess else times[|times| - 1]) - b.lastRefill <= span && allowance == span * rate
    ensures Run(b, times, capacity, rate).1 as real <= b.tokens + allowance
  {
    RunPays(b, times, capacity, rate);
    TokensStayInRange(b, times, capacity, rate);
    CreditSpent(b, Run(b, times, capacity, rate).0, rate, span, allowance);
  }

  /** Since its creation a bucket has admitted no more than its capacity and what the
      elapsed time refilled. */
  lemma AdmissionsSinceCreation(capacity: real, rate: real, created: real, times: seq<real>, refill: real)
    requires capacity >= 0.0 && rate >= 0.0 && times != [] && Clock(times, created)
    requires refill == (times[|times| - 1] - created) * rate
    ensures Run(Fresh(capacity, rate, created), times, capacity, rate).1 as real <= capacity + refill
  {
    RunAdmits(Fresh(capacity, rate, created), times, capacity, rate, times[|times| - 1] - created, refill);
  }

  lemma {:induction false} RunFirst(b: Bucket, times: seq<real>, capacity: real, rate: real)
    requires times != []
    ensures var (b1, ok) := Touch(b, capacity, rate, times[0]);
            var (b2, admitted) := Run(b1, times[1..], capacity, rate);
            Run(b, times, capacity, rate) == (b2, if ok then admitted + 1 else admitted)
  {
    var n := |times| - 1;
    if n == 0 {
      assert times[..n] == [] && times[1..] == [];
    } else {
      RunFirst(b, times[..n], capacity, rate);
      assert times[..n][1..] == times[1..][..n - 1];
    }
  }

  /** The first call of a run: what it leaves, and what the others admit. */
  lemma FirstCall(b: Bucket, times: seq<real>, capacity: real, rate: real) returns (b1: Bucket, first: real, others: real)
    requires Fits(b, capacity, rate) && rate >= 0.0 && times != [] && Clock(times, b.lastAccess)
    ensures Fits(b1, capacity, rate) && b1.lastAccess == times[0] && times[0] - b1.lastRefill <= MIN_REFILL
    ensures first + b1.tokens <= capacity
    ensures others == Run(b1, times[1..], capacity, rate).1 as real
    ensures Run(b, times, capacity, rate).1 as real == first + others
  {
    var ok;
    b1, ok := Touch(b, capacity, rate, times[0]).0, Touch(b, capacity, rate, times[0]).1;
    TouchKeepsFit(b, capacity, rate, times[0]);
    RunFirst(b, times, capacity, rate);
    first, others := Count(ok), Run(b1, times[1..], capacity, rate).1 as real;
  }

  /** In any stretch of consecutive calls, whatever came before them, the admissions are at
      most the capacity and the refill, `allowance`, of the span of the calls and the
      shortest refill interval. */
  lemma AdmissionsInSpan(b: Bucket, times: seq<real>, capacity: real, rate: real, span: real, allowance: real)
    requires Fits(b, capacity, rate) && rate >= 0.0 && times != [] && Clock(times, b.lastAccess)
    requires span == times[|times| - 1] - times[0] + MIN_REFILL && allowance == span * rate
    ensures Run(b, times, capacity, rate).1 as real <= capacity + allowance
  {
    var b1, first, others := FirstCall(b, times, capacity, rate);
    RunAdmits(b1, times[1..], capacity, rate, span, allowance);
  }

  lemma {:induction false} RunSplit(b: Bucket, times: seq<real>, i: nat, capacity: real, rate: real)
    requires i <= |times|
    ensures var (b1, before) := Run(b, times[..i], capacity, rate);
            var (b2, after) := Run(b1, times[i..], capacity, rate);
            Run(b, times, capacity, rate) == (b2, before + after)
  {
    if i == |times| {
      assert times[..i] == times && times[i..] == [];
    } else {
      var n := |times| - 1;
      RunSplit(b, times[..n], i, capacity, rate);
      assert times[..n][..i] == times[..i] && times[..n][i..] == times[i..][..n - i];
    }
  }

  /** The same for calls `i` to `j` of a bucket's whole life. */
  lemma AdmissionsInLife(capacity: real, rate: real, created: real, times: seq<real>, i: nat, j: nat, span: real, allowance: real)
    requires capacity >= 0.0 && rate >= 0.0 && Clock(times, created) && i < j <= |times|
    requires span == times[j - 1] - times[i] + MIN_REFILL && allowance == span * rate
    ensures var b := Fresh(capacity, rate, created);
            Run(b, times[..j], capacity, rate).1 as real - Run(b, times[..i], capacity, rate).1 as real <= capacity + allowance
  {
    var b := Fresh(capacity, rate, created);
    TokensStayInRange(b, times[..i], capacity, rate);
    RunSplit(b, times[..j], i, capacity, rate);
    assert times[..j][..i] == times[..i];
    AdmissionsInSpan(Run(b, times[..i], capacity, rate).0, times[i..j], capacity, rate, span, allowance);
  }

  /** A caller that stayed away for one token's worth of time is admitted. */
  lemma IdleCallerIsAdmitted(b: Bucket, capacity: real, rate: real, now: real)
    requires Fits(b, capacity, rate) && capacity >= 1.0 && rate > 0.0
    requires now - b.lastAccess >= MIN_REFILL && now - b.lastAccess >= 1.0 / rate
    ensures Touch(b, capacity, rate, now).1
  {
    var elapsed := now - b.lastRefill;
    assert elapsed * rate >= 1.0 by {
      assert 1.0 / rate * rate == 1.0;
      MulMonotone(1.0 / rate, elapsed, rate);
    }
    assert Refilled(b, capacity, rate, now).tokens == Min(capacity, b.tokens + elapsed * rate);
  }

  lemma RefillKeepsTokens(b: Bucket, capacity: real, rate: real, now: real)
    requires Fits(b, capacity, rate) && rate >= 0.0 && b.lastAccess <= now
    ensures b.tokens <= Refilled(b, capacity, rate, now).tokens
  {
    MulNonNegative(now - b.lastRefill, rate);
  }

  /** Tokens go only to admissions, so a bucket that holds one for every call of a run admits
      them all, whenever they come. */
  lemma {:induction false} TokensAreSpendable(b: Bucket, times: seq<real>, capacity: real, rate: real)
    requires Fits(b, capacity, rate) && rate >= 0.0 && Clock(times, b.lastAccess) && |times| as real <= b.tokens
    ensures var (b', admitted) := Run(b, times, capacity, rate);
            admitted == |times| && b.tokens - |times| as real <= b'.tokens
  {
    if times != [] {
      var n := |times| - 1;
      TokensAreSpendable(b, times[..n], capacity, rate);
      TokensStayInRange(b, times[..n], capacity, rate);
      RefillKeepsTokens(Run(b, times[..n], capacity, rate).0, capacity, rate, times[n]);
    }
  }

  /** A caller that stayed away until the bucket was full may make as many calls in a row as
      the capacity allows. */
  lemma IdleCallerMayBurst(b: Bucket, times: seq<real>, capacity: nat, rate: real)
    requires Fits(b, capacity as real, rate) && rate > 0.0 && 0 < |times| <= capacity && Clock(times, b.lastAccess)
    requires times[0] - b.lastAccess >= MIN_REFILL && times[0] - b.lastAccess >= capacity as real / rate
    ensures Run(b, times, capacity as real, rate).1 == |times|
  {
    var c := capacity as real;
    var elapsed := times[0] - b.lastRefill;
    assert elapsed * rate >= c by {
      assert c / rate * rate == c;
      MulMonotone(c / rate, elapsed, rate);
    }
    assert Refilled(b, c, rate, times[0]).tokens == c;
    TouchKeepsFit(b, c, rate, times[0]);
    RunFirst(b, times, c, rate);
    TokensAreSpendable(Touch(b, c, rate, times[0]).0, times[1..], c, rate);
  }

  /** Of any number of calls at the instant a bucket is made, it admits exactly its capacity. */
  lemma FreshBurstIsExact(capacity: nat, rate: real, now: real, times: seq<real>)
    requires rate >= 0.0 && forall i | 0 <= i < |times| :: times[i] == now
    ensures Run(Fresh(capacity as real, rate, now), times, capacity as real, rate).1
            == if |times| <= capacity then |times| else capacity
  {
    var c := capacity as real;
    var b := Fresh(c, rate, now);
    if |times| <= capacity {
      TokensAreSpendable(b, times, c, rate);
    } else {
      TokensAreSpendable(b, times[..capacity], c, rate);
      RunSplit(b, times, capacity, c, rate);
      RunAdmits(b, times, c, rate, 0.0, 0.0);
    }
  }

  /** A call under new limits leaves a bucket made for the old ones within the new. */
  lemma NewLimitsTakeEffect(b: Bucket, capacity: real, rate: real, now: real)
    requires 0.0 <= b.tokens && b.lastRefill <= b.lastAccess <= now && 0.0 <= capacity && 0.0 <= rate
    requires b.tokens <= b.capacity
    ensures Fits(Touch(b, capacity, rate, now).0, capacity, rate)
  {
    var elapsed := now - b.lastRefill;
    var kept := Bucket(Min(b.tokens, capacity), capacity, rate, b.lastRefill, now);
    MulNonNegative(elapsed, rate);
    assert Refilled(b, capacity, rate, now) ==
           if elapsed >= MIN_REFILL then kept.(tokens := Min(capacity, kept.tokens + elapsed * rate), lastRefill := now) else kept;
  }
}
