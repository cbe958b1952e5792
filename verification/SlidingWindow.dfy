/** The sharded flood limiter, the naive in-memory limiter, and the sliding window both
    of them stand for. */
module SlidingWindow {

  type Hits = map<string, seq<int>>

  datatype Limits = Limits(limit: int, window: int)

  /** An admission is normally recorded; at the key cap an address without recent timestamps is
      admitted unrecorded.  `Quiet` is the non-answer of an event that checks nothing. */
  datatype Answer = Rejected | Recorded | Unrecorded | Quiet

  const SHARDS: nat := 256
  const MAX_KEYS_PER_SHARD: nat := 50_000 / SHARDS
  const MEMORY_MAX_KEYS: nat := 100_000

  // ----- timestamps within the window -----

  function Recent(ts: seq<int>, now: int, window: int): seq<int> {
    if ts == [] then []
    else
      var t := ts[|ts| - 1];
      Recent(ts[..|ts| - 1], now, window) + if now - t < window then [t] else []
  }

  /** Compacts in place: the live timestamps move to the front, in their order. */
  method FilterRecent(ts: array<int>, now: int, window: int) returns (n: nat)
    modifies ts
    ensures n <= ts.Length && ts[..n] == Recent(old(ts[..]), now, window)
  {
    n := 0;
    ghost var all := ts[..];
    for i := 0 to ts.Length
      invariant n <= i
      invariant forall k | i <= k < ts.Length :: ts[k] == all[k]
      invariant ts[..n] == Recent(all[..i], now, window)
    {
      RecentStep(all, i, now, window);
      ghost var front := ts[..n];
      var t := ts[i];
      if now - t < window {
        ts[n] := t;
        n := n + 1;
        assert ts[..n] == front + [t];
      }
    }
    assert all[..ts.Length] == all;
  }

  lemma RecentStep(ts: seq<int>, i: nat, now: int, window: int)
    requires i < |ts|
    ensures Recent(ts[..i + 1], now, window) ==
            if now - ts[i] < window then Recent(ts[..i], now, window) + [ts[i]] else Recent(ts[..i], now, window)
  {
    assert ts[..i + 1][..i] == ts[..i];
    assert Recent(ts[..i], now, window) + [] == Recent(ts[..i], now, window);
  }

  lemma {:induction false} RecentAppend(a: seq<int>, b: seq<int>, now: int, window: int)
    ensures Recent(a + b, now, window) == Recent(a, now, window) + Recent(b, now, window)
  {
    if b == [] {
      assert a + b == a;
    } else {
      var front := b[..|b| - 1];
      assert (a + b)[..|a + b| - 1] == a + front;
      RecentAppend(a, front, now, window);
    }
  }

  /** Filtering early loses nothing that a later filter would keep. */
  lemma {:induction false} RecentTwice(ts: seq<int>, now: int, later: int, window: int)
    requires now <= later
    ensures Recent(Recent(ts, now, window), later, window) == Recent(ts, later, window)
  {
    if ts != [] {
      var front, t := ts[..|ts| - 1], ts[|ts| - 1];
      RecentTwice(front, now, later, window);
      RecentAppend(Recent(front, now, window), if now - t < window then [t] else [], later, window);
    }
  }

  // ----- one check, as a step on the stored timestamps -----

  function HitsOf(m: Hits, key: string): seq<int> {
    if key in m then m[key] else []
  }

  function FloodCheck(m: Hits, ip: string, now: int, cfg: Limits): (Hits, Answer) {
    var kept := Recent(HitsOf(m, ip), now, cfg.window);
    if |kept| >= cfg.limit then (m[ip := kept], Rejected)
    else if |m| >= MAX_KEYS_PER_SHARD && |kept| == 0 then (m, Unrecorded)
    else (m[ip := kept + [now]], Recorded)
  }

  /** Unlike the flood limiter, a rejection stores nothing. */
  function MemoryCheck(m: Hits, key: string, now: int, cfg: Limits): (Hits, Answer) {
    var kept := Recent(HitsOf(m, key), now, cfg.window);
    if |kept| >= cfg.limit then (m, Rejected)
    else if |m| >= MEMORY_MAX_KEYS && |kept| == 0 then (m, Unrecorded)
    else (m[key := kept + [now]], Recorded)
  }

  function Swept(m: Hits, now: int, window: int): Hits {
    map k | k in m && Recent(m[k], now, window) != [] :: Recent(m[k], now, window)
  }

  /** The key hash is left uninterpreted: everything below holds for every hash. */
  type Hash = string -> nat

  function ShardOf(h: Hash, ip: string): (i: nat)
    ensures i < SHARDS
  {
    h(ip) % SHARDS
  }

  // ----- the limiters -----

  class FloodShard {
    var basicAccess: Hits
    var challenged: map<string, int>

    constructor ()
      ensures basicAccess == map[] && challenged == map[]
    {
      basicAccess, challenged := map[], map[];
    }
  }

  class FloodProtector {
    const hash: Hash
    const shards: seq<FloodShard>

    ghost predicate Valid() {
      && |shards| == SHARDS
      && forall i, j | 0 <= i < j < SHARDS :: shards[i] != shards[j]
    }

    ghost function State(): seq<Hits>
      requires Valid()
      reads shards
    {
      seq(SHARDS, i requires 0 <= i < SHARDS reads shards => shards[i].basicAccess)
    }

    constructor (hash: Hash)
      ensures Valid() && fresh(shards) && this.hash == hash
      ensures State() == Fresh()
    {
      var made: seq<FloodShard> := [];
      for i := 0 to SHARDS
        invariant |made| == i && fresh(made)
        invariant forall k | 0 <= k < i :: made[k].basicAccess == map[]
        invariant forall k, l | 0 <= k < l < i :: made[k] != made[l]
      {
        var shard := new FloodShard();
        made := made + [shard];
      }
      this.hash := hash;
      shards := made;
    }

    method CheckBasicAccess(ip: string, now: int, cfg: Limits) returns (allowed: bool)
      requires Valid()
      modifies shards[ShardOf(hash, ip)]
      ensures var (m, answer) := FloodCheck(old(State())[ShardOf(hash, ip)], ip, now, cfg);
              State() == old(State())[ShardOf(hash, ip) := m] && (allowed <==> answer != Rejected)
      ensures shards[ShardOf(hash, ip)].challenged == old(shards[ShardOf(hash, ip)].challenged)
    {
      var sh := shards[ShardOf(hash, ip)];
      var stored := HitsOf(sh.basicAccess, ip);
      var buffer := new int[|stored|](i requires 0 <= i < |stored| => stored[i]);
      assert buffer[..] == stored;
      var n := FilterRecent(buffer, now, cfg.window);
      var kept := buffer[..n];
      if |kept| >= cfg.limit {
        sh.basicAccess := sh.basicAccess[ip := kept];
        return false;
      }
      if |sh.basicAccess| >= MAX_KEYS_PER_SHARD && |kept| == 0 {
        return true;
      }
      sh.basicAccess := sh.basicAccess[ip := kept + [now]];
      return true;
    }

    method SetChallenge(ip: string, now: int, duration: int)
      requires Valid()
      modifies (shards[ShardOf(hash, ip)] as FloodShard)`challenged
      ensures shards[ShardOf(hash, ip)].challenged == old(shards[ShardOf(hash, ip)].challenged)[ip := now + duration]
    {
      var sh := shards[ShardOf(hash, ip)];
      sh.challenged := sh.challenged[ip := now + duration];
    }

    /** An expired penalty is forgotten together with the timestamps of its address. */
    method IsChallenged(ip: string, now: int) returns (r: bool)
      requires Valid()
      modifies shards[ShardOf(hash, ip)]
      ensures var before := old(shards[ShardOf(hash, ip)].challenged);
              && (r <==> ip in before && now <= before[ip])
              && (r || ip !in before ==> State() == old(State()))
              && (!r && ip in before ==> State() == Forgiven(hash, old(State()), ip))
              && shards[ShardOf(hash, ip)].challenged == if r then before else before - {ip}
    {
      var sh := shards[ShardOf(hash, ip)];
      if ip !in sh.challenged {
        assert State() == old(State());
        return false;
      }
      if now > sh.challenged[ip] {
        sh.challenged := sh.challenged - {ip};
        sh.basicAccess := sh.basicAccess - {ip};
        return false;
      }
      return true;
    }

    method Cleanup(now: int, cfg: Limits)
      requires Valid()
      modifies shards
      ensures State() == SweptShards(old(State()), now, cfg.window)
    {
      for i := 0 to SHARDS
        invariant forall k | 0 <= k < i :: shards[k].basicAccess == Swept(old(shards[k].basicAccess), now, cfg.window)
        invariant forall k | i <= k < SHARDS :: shards[k].basicAccess == old(shards[k].basicAccess)
      {
        shards[i].basicAccess := Swept(shards[i].basicAccess, now, cfg.window);
        shards[i].challenged := map ip | ip in shards[i].challenged && now <= shards[i].challenged[ip] :: shards[i].challenged[ip];
      }
    }
  }

  class MemoryLimiter {
    var hits: Hits

    constructor ()
      ensures hits == map[]
    {
      hits := map[];
    }

    method Allow(key: string, now: int, cfg: Limits) returns (allowed: bool)
      modifies this
      ensures var (m, answer) := MemoryCheck(old(hits), key, now, cfg); hits == m && (allowed <==> answer != Rejected)
    {
      var timestamps := HitsOf(hits, key);
      var filtered := [];
      for i := 0 to |timestamps|
        invariant hits == old(hits)
        invariant filtered == Recent(timestamps[..i], now, cfg.window)
      {
        RecentStep(timestamps, i, now, cfg.window);
        if now - timestamps[i] < cfg.window {
          filtered := filtered + [timestamps[i]];
        }
      }
      assert timestamps[..|timestamps|] == timestamps;
      if |filtered| >= cfg.limit {
        return false;
      }
      if |hits| >= MEMORY_MAX_KEYS && |filtered| == 0 {
        return true;
      }
      hits := hits[key := filtered + [now]];
      return true;
    }
  }

  // ----- runs -----

  /** Checks, background sweeps of either limiter, and penalty expiries, in any order. */
  datatype Event =
    | Check(ip: string, now: int)
    | SweepFlood(now: int)
    | SweepMemory(now: int)
    | Forgive(ip: string, now: int)

  predicate Ordered(es: seq<Event>) {
    forall i, j | 0 <= i < j < |es| :: es[i].now <= es[j].now
  }

  function Fresh(): seq<Hits> {
    seq(SHARDS, _ => map[])
  }

  function SweptShards(st: seq<Hits>, now: int, window: int): (r: seq<Hits>)
    ensures |r| == |st|
  {
    seq(|st|, i requires 0 <= i < |st| => Swept(st[i], now, window))
  }

  function Forgiven(h: Hash, st: seq<Hits>, ip: string): seq<Hits>
    requires |st| == SHARDS
  {
    st[ShardOf(h, ip) := st[ShardOf(h, ip)] - {ip}]
  }

  function FloodStep(h: Hash, st: seq<Hits>, e: Event, cfg: Limits): (r: (seq<Hits>, Answer))
    requires |st| == SHARDS
    ensures |r.0| == SHARDS
  {
    match e
    case Check(ip, now) =>
      var (m, answer) := FloodCheck(st[ShardOf(h, ip)], ip, now, cfg);
      (st[ShardOf(h, ip) := m], answer)
    case SweepFlood(now) => (SweptShards(st, now, cfg.window), Quiet)
    case SweepMemory(_) => (st, Quiet)
    case Forgive(ip, _) => (Forgiven(h, st, ip), Quiet)
  }

  function FloodRun(h: Hash, es: seq<Event>, cfg: Limits): (r: (seq<Hits>, seq<Answer>))
    ensures |r.0| == SHARDS && |r.1| == |es|
  {
    if es == [] then (Fresh(), [])
    else
      var (st, answers) := FloodRun(h, es[..|es| - 1], cfg);
      var (st', answer) := FloodStep(h, st, es[|es| - 1], cfg);
      (st', answers + [answer])
  }

  function MemoryStep(m: Hits, e: Event, cfg: Limits): (Hits, Answer) {
    match e
    case Check(ip, now) => MemoryCheck(m, ip, now, cfg)
    case SweepMemory(now) => (Swept(m, now, cfg.window), Quiet)
    case _ => (m, Quiet)
  }

  function MemoryRun(es: seq<Event>, cfg: Limits): (r: (Hits, seq<Answer>))
    ensures |r.1| == |es|
  {
    if es == [] then (map[], [])
    else
      var (m, answers) := MemoryRun(es[..|es| - 1], cfg);
      var (m', answer) := MemoryStep(m, es[|es| - 1], cfg);
      (m', answers + [answer])
  }

  /** The times at which `ip` was admitted on the record, since it was last forgiven. */
  function Admissions(es: seq<Event>, answers: seq<Answer>, ip: string): seq<int>
    requires |answers| == |es|
  {
    if es == [] then []
    else
      var n := |es| - 1;
      Logged(Admissions(es[..n], answers[..n], ip), es[n], answers[n], ip)
  }

  function Logged(log: seq<int>, e: Event, answer: Answer, ip: string): seq<int> {
    match e
    case Check(key, now) => if key == ip && answer == Recorded then log + [now] else log
    case Forgive(key, _) => if key == ip then [] else log
    case _ => log
  }

  // ----- the stored timestamps are the recent admissions -----

  ghost predicate NoLater(es: seq<Event>, t: int) {
    forall i | 0 <= i < |es| :: es[i].now <= t
  }

  lemma RecordedRecent(stored: seq<int>, log: seq<int>, now: int, t: int, window: int)
    requires now <= t && Recent(stored, t, window) == Recent(log, t, window)
    ensures Recent(Recent(stored, now, window), t, window) == Recent(log, t, window)
    ensures Recent(Recent(stored, now, window) + [now], t, window) == Recent(log + [now], t, window)
  {
    RecentTwice(stored, now, t, window);
    RecentAppend(Recent(stored, now, window), [now], t, window);
    RecentAppend(log, [now], t, window);
  }

  lemma SweptKeepsRecent(m: Hits, key: string, now: int, t: int, window: int)
    requires now <= t
    ensures Recent(HitsOf(Swept(m, now, window), key), t, window) == Recent(HitsOf(m, key), t, window)
  {
    RecentTwice(HitsOf(m, key), now, t, window);
  }

  /** What a check leaves behind for each address. */
  lemma FloodCheckStores(m: Hits, key: string, now: int, cfg: Limits, ip: string)
    ensures var (m', answer) := FloodCheck(m, key, now, cfg);
            var kept := Recent(HitsOf(m, ip), now, cfg.window);
            HitsOf(m', ip) == if key != ip || answer == Unrecorded then HitsOf(m, ip)
                              else if answer == Recorded then kept + [now] else kept
  {
  }

  lemma LoggedRecent(stored: seq<int>, key: string, now: int, window: int, ip: string, t: int, log: seq<int>, answer: Answer)
    requires now <= t && Recent(stored, t, window) == Recent(log, t, window)
    ensures var kept := Recent(stored, now, window);
            var left := if key != ip || answer == Unrecorded then stored else if answer == Recorded then kept + [now] else kept;
            Recent(left, t, window) == Recent(Logged(log, Check(key, now), answer, ip), t, window)
  {
    RecordedRecent(stored, log, now, t, window);
  }

  lemma FloodCheckKeepsRecent(m: Hits, key: string, now: int, cfg: Limits, ip: string, t: int, log: seq<int>)
    requires now <= t && Recent(HitsOf(m, ip), t, cfg.window) == Recent(log, t, cfg.window)
    ensures var (m', answer) := FloodCheck(m, key, now, cfg);
            Recent(HitsOf(m', ip), t, cfg.window) == Recent(Logged(log, Check(key, now), answer, ip), t, cfg.window)
  {
    FloodCheckStores(m, key, now, cfg, ip);
    LoggedRecent(HitsOf(m, ip), key, now, cfg.window, ip, t, log, FloodCheck(m, key, now, cfg).1);
  }

  lemma FloodStepKeepsRecent(h: Hash, st: seq<Hits>, e: Event, cfg: Limits, ip: string, t: int, log: seq<int>)
    requires |st| == SHARDS && e.now <= t
    requires Recent(HitsOf(st[ShardOf(h, ip)], ip), t, cfg.window) == Recent(log, t, cfg.window)
    ensures var (st', answer) := FloodStep(h, st, e, cfg);
            Recent(HitsOf(st'[ShardOf(h, ip)], ip), t, cfg.window) == Recent(Logged(log, e, answer, ip), t, cfg.window)
  {
    var mine := st[ShardOf(h, ip)];
    match e
    case Check(key, now) =>
      if ShardOf(h, key) == ShardOf(h, ip) {
        FloodCheckKeepsRecent(mine, key, now, cfg, ip, t, log);
      }
    case SweepFlood(now) => SweptKeepsRecent(mine, ip, now, t, cfg.window);
    case SweepMemory(_) =>
    case Forgive(_, _) =>
  }

  lemma {:induction false} FloodInvariant(h: Hash, es: seq<Event>, cfg: Limits, ip: string, t: int)
    requires Ordered(es) && NoLater(es, t)
    ensures var (st, answers) := FloodRun(h, es, cfg);
            Recent(HitsOf(st[ShardOf(h, ip)], ip), t, cfg.window) == Recent(Admissions(es, answers, ip), t, cfg.window)
  {
    if es != [] {
      var n := |es| - 1;
      var (st, answers) := FloodRun(h, es[..n], cfg);
      FloodInvariant(h, es[..n], cfg, ip, t);
      FloodStepKeepsRecent(h, st, es[n], cfg, ip, t, Admissions(es[..n], answers, ip));
      assert FloodRun(h, es, cfg).1[..n] == answers;
    }
  }

  lemma MemoryCheckStores(m: Hits, key: string, now: int, cfg: Limits, ip: string)
    ensures var (m', answer) := MemoryCheck(m, key, now, cfg);
            HitsOf(m', ip) == if key == ip && answer == Recorded then Recent(HitsOf(m, ip), now, cfg.window) + [now]
                              else HitsOf(m, ip)
  {
  }

  lemma MemoryStepKeepsRecent(m: Hits, e: Event, cfg: Limits, ip: string, t: int, log: seq<int>)
    requires e.now <= t && !e.Forgive?
    requires Recent(HitsOf(m, ip), t, cfg.window) == Recent(log, t, cfg.window)
    ensures var (m', answer) := MemoryStep(m, e, cfg);
            Recent(HitsOf(m', ip), t, cfg.window) == Recent(Logged(log, e, answer, ip), t, cfg.window)
  {
    match e
    case Check(key, now) =>
      MemoryCheckStores(m, key, now, cfg, ip);
      RecordedRecent(HitsOf(m, ip), log, now, t, cfg.window);
    case SweepMemory(now) => SweptKeepsRecent(m, ip, now, t, cfg.window);
    case SweepFlood(_) =>
  }

  lemma {:induction false} MemoryInvariant(es: seq<Event>, cfg: Limits, ip: string, t: int)
    requires Ordered(es) && NoLater(es, t) && forall i | 0 <= i < |es| :: !es[i].Forgive?
    ensures var (m, answers) := MemoryRun(es, cfg);
            Recent(HitsOf(m, ip), t, cfg.window) == Recent(Admissions(es, answers, ip), t, cfg.window)
  {
    if es != [] {
      var n := |es| - 1;
      var (m, answers) := MemoryRun(es[..n], cfg);
      MemoryInvariant(es[..n], cfg, ip, t);
      MemoryStepKeepsRecent(m, es[n], cfg, ip, t, Admissions(es[..n], answers, ip));
      assert MemoryRun(es, cfg).1[..n] == answers;
    }
  }

  // ----- what the answers are -----

  /** An answer depends on what came before it alone. */
  lemma {:induction false} FloodAnswerAt(h: Hash, es: seq<Event>, cfg: Limits, i: nat)
    requires i < |es|
    ensures FloodRun(h, es, cfg).1[..i] == FloodRun(h, es[..i], cfg).1
    ensures FloodRun(h, es, cfg).1[i] == FloodStep(h, FloodRun(h, es[..i], cfg).0, es[i], cfg).1
  {
    var n := |es| - 1;
    if i < n {
      FloodAnswerAt(h, es[..n], cfg, i);
      assert es[..n][..i] == es[..i];
      assert FloodRun(h, es, cfg).1[..i] == FloodRun(h, es[..n], cfg).1[..i];
    }
  }

  /** Some check in a run is rejected exactly when the limit is used up within the window. */
  ghost predicate ExactAt(es: seq<Event>, answers: seq<Answer>, i: nat, cfg: Limits)
    requires |answers| == |es| && i < |es| && es[i].Check?
  {
    answers[i] == Rejected <==>
    |Recent(Admissions(es[..i], answers[..i], es[i].ip), es[i].now, cfg.window)| >= cfg.limit
  }

  /** Whatever the run, sweeps and penalty expiries included, the flood limiter rejects a
      check exactly when `limit` recorded admissions of its address lie within the window. */
  lemma {:induction false} FloodIsExact(h: Hash, es: seq<Event>, cfg: Limits, i: nat)
    requires Ordered(es) && i < |es| && es[i].Check?
    ensures ExactAt(es, FloodRun(h, es, cfg).1, i, cfg)
  {
    var n := |es| - 1;
    var answers := FloodRun(h, es[..n], cfg).1;
    assert FloodRun(h, es, cfg).1[..n] == answers;
    if i == n {
      FloodInvariant(h, es[..n], cfg, es[n].ip, es[n].now);
    } else {
      FloodIsExact(h, es[..n], cfg, i);
      assert es[..n][..i] == es[..i] && FloodRun(h, es, cfg).1[..i] == answers[..i];
    }
  }

  lemma {:induction false} MemoryIsExact(es: seq<Event>, cfg: Limits, i: nat)
    requires Ordered(es) && i < |es| && es[i].Check?
    requires forall k | 0 <= k < |es| :: !es[k].Forgive?
    ensures ExactAt(es, MemoryRun(es, cfg).1, i, cfg)
  {
    var n := |es| - 1;
    var answers := MemoryRun(es[..n], cfg).1;
    assert MemoryRun(es, cfg).1[..n] == answers;
    if i == n {
      MemoryInvariant(es[..n], cfg, es[n].ip, es[n].now);
    } else {
      MemoryIsExact(es[..n], cfg, i);
      assert es[..n][..i] == es[..i] && MemoryRun(es, cfg).1[..i] == answers[..i];
    }
  }

  /** Checks, and only checks, are answered. */
  ghost predicate Answered(es: seq<Event>, answers: seq<Answer>) {
    |answers| == |es| && forall i | 0 <= i < |es| :: answers[i] == Quiet <==> !es[i].Check?
  }

  lemma {:induction false} RunsAnswer(h: Hash, es: seq<Event>, cfg: Limits)
    ensures Answered(es, FloodRun(h, es, cfg).1) && Answered(es, MemoryRun(es, cfg).1)
  {
    if es != [] {
      RunsAnswer(h, es[..|es| - 1], cfg);
    }
  }

  /** Exact answers to the same checks agree. */
  lemma {:induction false} ExactAnswersAgree(es: seq<Event>, a: seq<Answer>, b: seq<Answer>, cfg: Limits, n: nat)
    requires Answered(es, a) && Answered(es, b) && Unrecorded !in a && Unrecorded !in b && n <= |es|
    requires forall i | 0 <= i < |es| && es[i].Check? :: ExactAt(es, a, i, cfg) && ExactAt(es, b, i, cfg)
    ensures a[..n] == b[..n]
  {
    if n > 0 {
      var i := n - 1;
      ExactAnswersAgree(es, a, b, cfg, i);
      assert es[i].Check? ==> ExactAt(es, a, i, cfg) && ExactAt(es, b, i, cfg);
      assert a[i] in a && b[i] in b;
      assert a[..n] == a[..i] + [a[i]] && b[..n] == b[..i] + [b[i]];
    }
  }
}
