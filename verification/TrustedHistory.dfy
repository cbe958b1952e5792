/** The cooldown counter behind trusted history: how long an address must have behaved before
    its score is reduced.  Times are in milliseconds; a key is gone once its time has come. */
module TrustedHistory {
  import opened Outcomes

  const TTL := 86_400_000
  const COOLDOWN := 1_000

  const COUNTER_PREFIX := "th:"
  const COOLDOWN_PREFIX := "th:cooldown:"

  // ----- the key store -----

  datatype Entry = Entry(value: int, expires: int)

  type Keys = map<string, Entry>

  function Lookup(db: Keys, key: string, now: int): Option<int> {
    if key in db && now < db[key].expires then Some(db[key].value) else None
  }

  /** The script, as one atomic step: count at most once per cooldown, and give a new counter
      its time to live. */
  function Incremented(db: Keys, counter: string, cooldown: string, now: int): Keys {
    if Lookup(db, cooldown, now).Some? then db
    else
      var marked := db[cooldown := Entry(1, now + COOLDOWN)];
      match Lookup(marked, counter, now)
      case None => marked[counter := Entry(1, now + TTL)]
      case Some(n) => marked[counter := Entry(n + 1, if n + 1 == 1 then now + TTL else marked[counter].expires)]
  }

  class RedisClient {
    var enabled: bool
    var db: Keys

    constructor ()
      ensures enabled && db == map[]
    {
      enabled, db := true, map[];
    }

    method IncrWithCooldown(counter: string, cooldown: string, now: int) returns (counted: Option<bool>)
      modifies this`db
      ensures !enabled ==> counted == None && db == old(db)
      ensures enabled ==> db == Incremented(old(db), counter, cooldown, now)
                          && counted == Some(Lookup(old(db), cooldown, now).None?)
    {
      if !enabled {
        return None;
      }
      if cooldown in db && now < db[cooldown].expires {
        return Some(false);
      }
      db := db[cooldown := Entry(1, now + COOLDOWN)];
      var value := 1;
      if counter in db && now < db[counter].expires {
        value := db[counter].value + 1;
        db := db[counter := Entry(value, db[counter].expires)];
      }
      if value == 1 {
        db := db[counter := Entry(1, now + TTL)];
      }
      return Some(true);
    }

    method GetInt(key: string, now: int) returns (value: Option<int>)
      ensures value == if enabled then Lookup(db, key, now) else None
    {
      if !enabled || key !in db || now >= db[key].expires {
        return None;
      }
      return Some(db[key].value);
    }

    method Del(key: string)
      modifies this`db
      ensures db == if enabled then old(db) - {key} else old(db)
    {
      if enabled {
        db := db - {key};
      }
    }
  }

  // ----- the scorer -----

  function CounterKey(ip: string): string {
    COUNTER_PREFIX + ip
  }

  function CooldownKey(ip: string): string {
    COOLDOWN_PREFIX + ip
  }

  datatype TrustConfig = TrustConfig(threshold: int, reduction: int)

  /** The change to the trust score. */
  function Reduction(db: Keys, cfg: TrustConfig, ip: string, now: int): int {
    if cfg.threshold <= 0 || cfg.reduction == 0 then 0
    else match Lookup(db, CounterKey(ip), now)
      case None => 0
      case Some(n) => if n >= cfg.threshold then cfg.reduction else 0
  }

  class Scorer {
    const redis: RedisClient

    constructor (redis: RedisClient)
      ensures this.redis == redis
    {
      this.redis := redis;
    }

    method Handle(hardDecision: bool, cfg: Option<TrustConfig>, ip: string, now: int) returns (change: int)
      ensures change == if hardDecision || cfg.None? || !redis.enabled then 0 else Reduction(redis.db, cfg.value, ip, now)
    {
      if hardDecision || cfg.None? {
        return 0;
      }
      var threshold, reduction := cfg.value.threshold, cfg.value.reduction;
      if threshold <= 0 || reduction == 0 || !redis.enabled {
        return 0;
      }
      var count := redis.GetInt(CounterKey(ip), now);
      if count.None? {
        return 0;
      }
      return if count.value >= threshold then reduction else 0;
    }

    method RecordCleanRequest(ip: string, now: int)
      modifies redis`db
      ensures redis.db == Applied(old(redis.db), Record(ip, now, redis.enabled))
    {
      if !redis.enabled {
        return;
      }
      var _ := redis.IncrWithCooldown(CounterKey(ip), CooldownKey(ip), now);
    }

    method ResetHistory(ip: string, now: int)
      modifies redis`db
      ensures redis.db == Applied(old(redis.db), Reset(ip, now, redis.enabled))
    {
      if !redis.enabled {
        return;
      }
      redis.Del(CounterKey(ip));
      redis.Del(CooldownKey(ip));
    }
  }

  // ----- runs -----

  /** A clean request, or one that was blocked or challenged, and whether the store was up. */
  datatype Event = Record(ip: string, now: int, enabled: bool) | Reset(ip: string, now: int, enabled: bool)

  function Applied(db: Keys, e: Event): Keys {
    if !e.enabled then db
    else match e
      case Record(ip, now, _) => Incremented(db, CounterKey(ip), CooldownKey(ip), now)
      case Reset(ip, _, _) => db - {CounterKey(ip)} - {CooldownKey(ip)}
  }

  function After(run: seq<Event>): Keys {
    if run == [] then map[] else Applied(After(run[..|run| - 1]), run[|run| - 1])
  }

  predicate Ordered(run: seq<Event>) {
    forall i, j :: 0 <= i < j < |run| ==> run[i].now <= run[j].now
  }

  // ----- which keys are whose -----

  /** The name whose counter is the cooldown of `ip`.  Addresses come from request headers as
      they are, so a client may bear it. */
  function Alias(ip: string): string {
    "cooldown:" + ip
  }

  /** The address is nobody's alias. */
  predicate IsPlain(ip: string) {
    !("cooldown:" <= ip)
  }

  /** Keys of different addresses are different, but for the counter of an alias, which is the
      cooldown of the address it stands for. */
  lemma KeysMeet(a: string, b: string)
    ensures CounterKey(a) == CounterKey(b) <==> a == b
    ensures CooldownKey(a) == CooldownKey(b) <==> a == b
    ensures CounterKey(a) == CooldownKey(b) <==> a == Alias(b)
    ensures IsPlain(a) ==> CounterKey(a) != CooldownKey(b)
  {
    assert CounterKey(a)[3..] == a && CounterKey(b)[3..] == b;
    assert CooldownKey(a)[12..] == a && CooldownKey(b)[12..] == b;
    assert CooldownKey(b) == CounterKey(Alias(b));
    assert CounterKey(Alias(b))[3..] == Alias(b);
  }

  /** A reset under the alias, which removes the cooldown of the address. */
  predicate Renews(e: Event, ip: string) {
    e.Reset? && e.enabled && e.ip == Alias(ip)
  }

  /** How often that happened strictly between two events. */
  function Renewals(run: seq<Event>, ip: string, i: int, j: int): nat
    requires 0 <= i && j <= |run|
    decreases j - i
  {
    if j <= i + 1 then 0 else Renewals(run, ip, i, j - 1) + if Renews(run[j - 1], ip) then 1 else 0
  }

  lemma {:induction false} RenewalsAdd(run: seq<Event>, ip: string, i: int, j: int, k: int)
    requires 0 <= i <= j <= k <= |run|
    ensures Renewals(run, ip, i, k) >= Renewals(run, ip, i, j) + Renewals(run, ip, j, k)
    decreases k - j
  {
    if k > j {
      RenewalsAdd(run, ip, i, j, k - 1);
    }
  }

  lemma {:induction false} RenewalsStay(run: seq<Event>, e: Event, ip: string, i: int, j: int)
    requires 0 <= i && j <= |run|
    ensures Renewals(run + [e], ip, i, j) == Renewals(run, ip, i, j)
    decreases j - i
  {
    if j > i + 1 {
      RenewalsStay(run, e, ip, i, j - 1);
    }
  }

  // ----- what a counter stands for -----

  /** `index` is a clean request of the address that nothing has wiped out since. */
  predicate Stands(run: seq<Event>, ip: string, index: int) {
    && 0 <= index < |run| && run[index].Record? && run[index].ip == ip && run[index].enabled
    && forall j :: index < j < |run| && run[j].Reset? && run[j].ip == ip ==> !run[j].enabled
  }

  /** The second event comes a cooldown after the first, or a reset under the alias between. */
  predicate Apart(run: seq<Event>, ip: string, i: int, j: int) {
    && 0 <= i < j < |run|
    && (run[i].now + COOLDOWN <= run[j].now || Renewals(run, ip, i, j) > 0)
  }

  /** A history of clean requests that were each counted on their own. */
  ghost predicate Spaced(run: seq<Event>, ip: string, indices: seq<int>) {
    && (forall i :: 0 <= i < |indices| ==> Stands(run, ip, indices[i]))
    && (forall i :: 0 < i < |indices| ==> Apart(run, ip, indices[i - 1], indices[i]))
  }

  /** The cooldown that followed event `last` is still on, or a reset under the alias ended it. */
  ghost predicate Cooling(run: seq<Event>, ip: string, db: Keys, last: int)
    requires 0 <= last < |run|
  {
    || (CooldownKey(ip) in db && db[CooldownKey(ip)].expires >= run[last].now + COOLDOWN)
    || Renewals(run, ip, last, |run|) > 0
  }

  ghost predicate Explains(run: seq<Event>, ip: string, db: Keys, indices: seq<int>) {
    && |indices| > 0 && Spaced(run, ip, indices) && Stands(run, ip, indices[0]) && Stands(run, ip, indices[|indices| - 1])
    && CounterKey(ip) in db && db[CounterKey(ip)] == Entry(|indices|, run[indices[0]].now + TTL)
    && Cooling(run, ip, db, indices[|indices| - 1])
  }

  ghost predicate Inv(run: seq<Event>, ip: string) {
    var db := After(run);
    CounterKey(ip) in db ==> exists indices :: Explains(run, ip, db, indices)
  }

  lemma StandsLonger(run: seq<Event>, e: Event, ip: string, indices: seq<int>)
    requires Spaced(run, ip, indices) && (e.Reset? && e.ip == ip ==> !e.enabled)
    ensures Spaced(run + [e], ip, indices)
  {
    forall i | 0 <= i < |indices|
      ensures Stands(run + [e], ip, indices[i])
    {
      assert Stands(run, ip, indices[i]);
    }
    forall i | 0 < i < |indices|
      ensures Apart(run + [e], ip, indices[i - 1], indices[i])
    {
      assert Apart(run, ip, indices[i - 1], indices[i]);
      RenewalsStay(run, e, ip, indices[i - 1], indices[i]);
    }
  }

  /** Other addresses do not touch the counter; the alias can prolong the cooldown, and only its
      reset ends it. */
  lemma AppliedElsewhere(db: Keys, e: Event, ip: string)
    requires IsPlain(ip) && e.ip != ip
    ensures CounterKey(ip) in Applied(db, e) <==> CounterKey(ip) in db
    ensures CounterKey(ip) in db ==> Applied(db, e)[CounterKey(ip)] == db[CounterKey(ip)]
    ensures CooldownKey(ip) in db && !Renews(e, ip) ==>
              && CooldownKey(ip) in Applied(db, e)
              && (Applied(db, e)[CooldownKey(ip)].expires >= db[CooldownKey(ip)].expires
                  || Applied(db, e)[CooldownKey(ip)].expires == e.now + TTL)
  {
    KeysMeet(ip, e.ip);
    KeysMeet(e.ip, ip);
  }

  lemma CoolsOn(run: seq<Event>, e: Event, ip: string, db: Keys, last: int)
    requires Ordered(run + [e]) && 0 <= last < |run| && Cooling(run, ip, db, last)
    requires Renews(e, ip) || (CooldownKey(ip) in db ==>
               && CooldownKey(ip) in Applied(db, e)
               && (Applied(db, e)[CooldownKey(ip)].expires >= db[CooldownKey(ip)].expires
                   || Applied(db, e)[CooldownKey(ip)].expires == e.now + TTL))
    ensures Cooling(run + [e], ip, Applied(db, e), last)
  {
    var after := run + [e];
    RenewalsStay(run, e, ip, last, |run|);
    assert Renewals(after, ip, last, |after|) == Renewals(after, ip, last, |run|) + if Renews(e, ip) then 1 else 0;
    assert after[last].now <= after[|run|].now;
  }

  /** A counted request extends the history, or starts a new one. */
  lemma CountedIsExplained(run: seq<Event>, e: Event)
    requires Ordered(run + [e]) && e.Record? && e.enabled && IsPlain(e.ip)
    requires Lookup(After(run), CooldownKey(e.ip), e.now).None? && Inv(run, e.ip)
    ensures exists indices :: Explains(run + [e], e.ip, Applied(After(run), e), indices)
  {
    var db, now, after := After(run), e.now, run + [e];
    KeysMeet(e.ip, e.ip);
    assert Stands(after, e.ip, |run|);
    if Lookup(db, CounterKey(e.ip), now).Some? {
      var indices :| Explains(run, e.ip, db, indices);
      var last, longer := indices[|indices| - 1], indices + [|run|];
      StandsLonger(run, e, e.ip, indices);
      RenewalsStay(run, e, e.ip, last, |run|);
      assert Apart(after, e.ip, last, |run|);
      assert Spaced(after, e.ip, longer);
      assert Explains(after, e.ip, Applied(db, e), longer);
    } else {
      assert Explains(after, e.ip, Applied(db, e), [|run|]);
    }
  }

  lemma OtherwiseExplained(run: seq<Event>, e: Event, ip: string, indices: seq<int>)
    requires Ordered(run + [e]) && IsPlain(ip) && Explains(run, ip, After(run), indices)
    requires CounterKey(ip) in Applied(After(run), e)
    requires e.enabled && e.ip == ip && e.Record? ==> Lookup(After(run), CooldownKey(ip), e.now).Some?
    ensures Explains(run + [e], ip, Applied(After(run), e), indices)
  {
    var db := After(run);
    if e.ip != ip {
      AppliedElsewhere(db, e, ip);
    } else {
      KeysMeet(ip, ip);
    }
    StandsLonger(run, e, ip, indices);
    CoolsOn(run, e, ip, db, indices[|indices| - 1]);
  }

  lemma StepKeepsInv(run: seq<Event>, e: Event, ip: string)
    requires Ordered(run + [e]) && IsPlain(ip) && Inv(run, ip)
    ensures Inv(run + [e], ip)
  {
    var db, after := After(run), Applied(After(run), e);
    assert (run + [e])[..|run|] == run && After(run + [e]) == after;
    if e.enabled && e.ip == ip && e.Record? && Lookup(db, CooldownKey(ip), e.now).None? {
      CountedIsExplained(run, e);
    } else if CounterKey(ip) in after {
      if e.ip != ip {
        AppliedElsewhere(db, e, ip);
      } else {
        KeysMeet(ip, ip);
      }
      var indices :| Explains(run, ip, db, indices);
      OtherwiseExplained(run, e, ip, indices);
    }
  }

  lemma {:induction false} RunKeepsInv(run: seq<Event>, ip: string)
    requires Ordered(run) && IsPlain(ip)
    ensures Inv(run, ip)
  {
    if run != [] {
      var most, e := run[..|run| - 1], run[|run| - 1];
      assert run == most + [e];
      RunKeepsInv(most, ip);
      StepKeepsInv(most, e, ip);
    }
  }

  lemma {:induction false} SpacedSpan(run: seq<Event>, ip: string, indices: seq<int>, n: nat)
    requires Ordered(run) && Spaced(run, ip, indices) && n < |indices|
    ensures Stands(run, ip, indices[0]) && Stands(run, ip, indices[n]) && indices[0] <= indices[n]
    ensures run[indices[n]].now - run[indices[0]].now >= (n - Renewals(run, ip, indices[0], indices[n])) * COOLDOWN
  {
    if n > 0 {
      SpacedSpan(run, ip, indices, n - 1);
      assert Apart(run, ip, indices[n - 1], indices[n]);
      RenewalsAdd(run, ip, indices[0], indices[n - 1], indices[n]);
    }
  }

  /** A reading of `k` means `k` clean requests of this address, none wiped out since and all
      within the time to live.  It took at least `k - 1` cooldowns, less one for each reset
      under the alias in between; with no such reset it is at most TTL/COOLDOWN. */
  lemma ReadingIsEarned(run: seq<Event>, ip: string, now: int, k: int) returns (indices: seq<int>, renewals: nat)
    requires Ordered(run) && IsPlain(ip) && (forall e <- run :: e.now <= now)
    requires Lookup(After(run), CounterKey(ip), now) == Some(k)
    ensures |indices| == k >= 1 && Spaced(run, ip, indices)
    ensures Stands(run, ip, indices[0]) && renewals == Renewals(run, ip, indices[0], |run|)
    ensures now - TTL < run[indices[0]].now <= now - (k - 1 - renewals) * COOLDOWN
    ensures k <= TTL / COOLDOWN + renewals
  {
    RunKeepsInv(run, ip);
    indices :| Explains(run, ip, After(run), indices);
    renewals := Renewals(run, ip, indices[0], |run|);
    SpacedSpan(run, ip, indices, k - 1);
    RenewalsAdd(run, ip, indices[0], indices[k - 1], |run|);
    assert run[indices[k - 1]] in run;
  }

  /** A trust reduction needs a clean request of the address `threshold - 1` cooldowns ago or
      more, less one for each reset under the alias, with no effective reset of its own since;
      and a threshold beyond what fits into the time to live is never met. */
  lemma ReductionNeedsHistory(run: seq<Event>, ip: string, now: int, cfg: TrustConfig) returns (first: int)
    requires Ordered(run) && IsPlain(ip) && (forall e <- run :: e.now <= now)
    requires Reduction(After(run), cfg, ip, now) != 0
    ensures Stands(run, ip, first) && Reduction(After(run), cfg, ip, now) == cfg.reduction
    ensures var renewals := Renewals(run, ip, first, |run|);
            && now - run[first].now >= (cfg.threshold - 1 - renewals) * COOLDOWN
            && cfg.threshold <= TTL / COOLDOWN + renewals
  {
    var k := Lookup(After(run), CounterKey(ip), now).value;
    var indices, renewals := ReadingIsEarned(run, ip, now, k);
    first := indices[0];
  }

  // ----- what a counter reads, from the requests of the address alone -----

  /** The requests counted so far, and the times of the first and the last of them. */
  datatype Tally = Tally(count: int, first: int, last: int)

  function Tallied(t: Option<Tally>, now: int): Option<Tally> {
    match t
    case None => Some(Tally(1, now, now))
    case Some(Tally(count, first, last)) =>
      if now < last + COOLDOWN then t
      else if now < first + TTL then Some(Tally(count + 1, first, now))
      else Some(Tally(1, now, now))
  }

  function TallyOf(run: seq<Event>, ip: string): Option<Tally> {
    if run == [] then None
    else
      var before, e := TallyOf(run[..|run| - 1], ip), run[|run| - 1];
      if !e.enabled || e.ip != ip then before else if e.Reset? then None else Tallied(before, e.now)
  }

  function Reading(t: Option<Tally>, now: int): Option<int> {
    if t.Some? && now < t.value.first + TTL then Some(t.value.count) else None
  }

  ghost predicate Mirrors(db: Keys, ip: string, t: Option<Tally>) {
    match t
    case None => CounterKey(ip) !in db && CooldownKey(ip) !in db
    case Some(Tally(count, first, last)) =>
      && count >= 1 && CounterKey(ip) in db && db[CounterKey(ip)] == Entry(count, first + TTL)
      && CooldownKey(ip) in db && db[CooldownKey(ip)] == Entry(1, last + COOLDOWN)
  }

  /** Nothing effective happens under the alias. */
  ghost predicate Unaliased(run: seq<Event>, ip: string) {
    forall e <- run :: e.enabled ==> e.ip != Alias(ip)
  }

  lemma StepMirrors(db: Keys, e: Event, ip: string, t: Option<Tally>)
    requires IsPlain(ip) && Mirrors(db, ip, t) && (e.enabled ==> e.ip != Alias(ip))
    ensures Mirrors(Applied(db, e), ip, if !e.enabled || e.ip != ip then t else if e.Reset? then None else Tallied(t, e.now))
  {
    KeysMeet(ip, ip);
    KeysMeet(ip, e.ip);
    KeysMeet(e.ip, ip);
  }

  lemma {:induction false} RunMirrors(run: seq<Event>, ip: string)
    requires IsPlain(ip) && Unaliased(run, ip)
    ensures Mirrors(After(run), ip, TallyOf(run, ip))
  {
    if run != [] {
      var most, e := run[..|run| - 1], run[|run| - 1];
      assert forall x <- most :: x in run;
      RunMirrors(most, ip);
      StepMirrors(After(most), e, ip, TallyOf(most, ip));
    }
  }

  /** Whatever other addresses do, short of bearing the alias, the counter reads what the
      address's own requests tally to. */
  lemma ReadingIsTally(run: seq<Event>, ip: string, now: int)
    requires IsPlain(ip) && Unaliased(run, ip)
    ensures Lookup(After(run), CounterKey(ip), now) == Reading(TallyOf(run, ip), now)
  {
    RunMirrors(run, ip);
  }

  /** The times of the address's clean requests. */
  function CleanTimes(run: seq<Event>, ip: string): seq<int> {
    if run == [] then []
    else
      var e := run[|run| - 1];
      CleanTimes(run[..|run| - 1], ip) + if e.Record? && e.enabled && e.ip == ip then [e.now] else []
  }

  ghost predicate NeverReset(run: seq<Event>, ip: string) {
    forall e <- run :: e.Reset? && e.ip == ip ==> !e.enabled
  }

  ghost predicate Steady(times: seq<int>) {
    forall i | 0 < i < |times| :: times[i - 1] + COOLDOWN <= times[i] < times[0] + TTL
  }

  lemma {:induction false} SteadyTally(run: seq<Event>, ip: string)
    requires NeverReset(run, ip) && Steady(CleanTimes(run, ip))
    ensures var ts := CleanTimes(run, ip);
            TallyOf(run, ip) == if ts == [] then None else Some(Tally(|ts|, ts[0], ts[|ts| - 1]))
  {
    if run != [] {
      var most, e, ts := run[..|run| - 1], run[|run| - 1], CleanTimes(run, ip);
      var earlier := CleanTimes(most, ip);
      assert e in run && forall x <- most :: x in run;
      assert forall i | 0 <= i < |earlier| :: ts[i] == earlier[i];
      assert Steady(earlier);
      SteadyTally(most, ip);
      if e.Record? && e.enabled && e.ip == ip && earlier != [] {
        assert ts[|earlier| - 1] + COOLDOWN <= ts[|earlier|] < ts[0] + TTL;
      }
    }
  }

  /** An address whose clean requests keep the cooldown, with none blocked, has its score
      reduced as soon as there are `threshold` of them, until the first is a day old. */
  lemma SteadyClientIsTrusted(run: seq<Event>, ip: string, now: int, cfg: TrustConfig)
    requires IsPlain(ip) && Unaliased(run, ip) && NeverReset(run, ip) && Steady(CleanTimes(run, ip)) && cfg.threshold > 0
    ensures var ts := CleanTimes(run, ip);
            Reduction(After(run), cfg, ip, now)
            == if |ts| >= cfg.threshold && now < ts[0] + TTL then cfg.reduction else 0
  {
    SteadyTally(run, ip);
    ReadingIsTally(run, ip, now);
  }

  // ----- the aliases do matter -----

  /** A reset under the alias lets the next clean request count at once, whatever the cooldown:
      any live reading goes up by one without any time passing. */
  lemma AliasRenews(run: seq<Event>, ip: string, now: int, k: int)
    requires IsPlain(ip) && Lookup(After(run), CounterKey(ip), now) == Some(k)
    ensures Lookup(After(run + [Reset(Alias(ip), now, true), Record(ip, now, true)]), CounterKey(ip), now) == Some(k + 1)
  {
    var reset, record := Reset(Alias(ip), now, true), Record(ip, now, true);
    var freed, all := run + [reset], run + [reset, record];
    assert freed[..|run|] == run && all[..|freed|] == freed && all[|freed|] == record;
    KeysMeet(ip, ip);
    KeysMeet(ip, Alias(ip));
    KeysMeet(Alias(ip), ip);
    assert CooldownKey(ip) !in After(freed) && CounterKey(ip) in After(freed);
  }

  /** For example, after one clean request and one blocked request under "cooldown:9" the
      counter of "9" reads 2 at time 0. */
  lemma AliasRenewsNine()
    ensures Lookup(After([Record("9", 0, true), Reset("cooldown:9", 0, true), Record("9", 0, true)]), CounterKey("9"), 0) == Some(2)
  {
    var ip, first := "9", [Record("9", 0, true)];
    assert first[..0] == [];
    KeysMeet(ip, ip);
    assert Lookup(After(first), CounterKey(ip), 0) == Some(1);
    AliasRenews(first, ip, 0, 1);
    assert Alias(ip) == "cooldown:9";
    assert first + [Reset(Alias(ip), 0, true), Record(ip, 0, true)] == [Record("9", 0, true), Reset("cooldown:9", 0, true), Record("9", 0, true)];
  }

  /** And the reading of an alias need not be its own: the one clean request is another's. */
  lemma AliasReadsAnother(ip: string, now: int)
    ensures Lookup(After([Record(ip, now, true)]), CounterKey(Alias(ip)), now) == Some(1)
  {
    var run := [Record(ip, now, true)];
    assert run[..0] == [];
    KeysMeet(Alias(ip), ip);
    KeysMeet(ip, ip);
    assert |Alias(ip)| != |ip|;
    KeysMeet(ip, Alias(ip));
  }
}
