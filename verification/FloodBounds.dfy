/** What the flood limiter guarantees over whole runs: how many admissions a window holds, what
    penalty expiries and the key cap do to that, and when it agrees with the naive limiter. */
module FloodBounds {
  import opened Outcomes
  import opened FiniteSets
  import opened SlidingWindow

  // ----- all recorded admissions -----

  /** The times of all recorded admissions of `ip`; unlike `Admissions` it is never cleared. */
  function Granted(es: seq<Event>, answers: seq<Answer>, ip: string): seq<int>
    requires |answers| == |es|
  {
    if es == [] then []
    else
      var n := |es| - 1;
      Granted(es[..n], answers[..n], ip)
      + if es[n].Check? && es[n].ip == ip && answers[n] == Recorded then [es[n].now] else []
  }

  ghost function GrantedTo(h: Hash, es: seq<Event>, cfg: Limits, ip: string): seq<int> {
    Granted(es, FloodRun(h, es, cfg).1, ip)
  }

  function InSpan(ts: seq<int>, from: int, length: int): seq<int> {
    if ts == [] then []
    else
      var t := ts[|ts| - 1];
      InSpan(ts[..|ts| - 1], from, length) + if from <= t < from + length then [t] else []
  }

  lemma InSpanAppend(ts: seq<int>, t: int, from: int, length: int)
    ensures InSpan(ts + [t], from, length) ==
            if from <= t < from + length then InSpan(ts, from, length) + [t] else InSpan(ts, from, length)
  {
    assert (ts + [t])[..|ts|] == ts;
    assert InSpan(ts, from, length) + [] == InSpan(ts, from, length);
  }

  lemma {:induction false} SpanWithinRecent(ts: seq<int>, from: int, now: int, window: int)
    requires from <= now < from + window
    ensures |InSpan(ts, from, window)| <= |Recent(ts, now, window)|
  {
    if ts != [] {
      SpanWithinRecent(ts[..|ts| - 1], from, now, window);
    }
  }

  ghost predicate NoneLater(ts: seq<int>, now: int) {
    forall i | 0 <= i < |ts| :: ts[i] <= now
  }

  lemma {:induction false} RecentIsSpan(ts: seq<int>, now: int, window: int)
    requires NoneLater(ts, now)
    ensures Recent(ts, now, window) == InSpan(ts, now - window + 1, window)
  {
    if ts != [] {
      RecentIsSpan(ts[..|ts| - 1], now, window);
    }
  }

  lemma {:induction false} AdmittedByNow(es: seq<Event>, answers: seq<Answer>, ip: string, now: int)
    requires |answers| == |es| && NoLater(es, now)
    ensures NoneLater(Admissions(es, answers, ip), now)
  {
    if es != [] {
      var n := |es| - 1;
      AdmittedByNow(es[..n], answers[..n], ip, now);
    }
  }

  /** A check is rejected exactly when `limit` of the recorded admissions since the last penalty
      expired fall on the `window` ticks that end with its own. */
  lemma RejectedIffSpanFull(h: Hash, es: seq<Event>, cfg: Limits, i: nat)
    requires Ordered(es) && i < |es| && es[i].Check?
    ensures var answers := FloodRun(h, es, cfg).1;
            answers[i] == Rejected <==>
            |InSpan(Admissions(es[..i], answers[..i], es[i].ip), es[i].now - cfg.window + 1, cfg.window)| >= cfg.limit
  {
    var answers, now := FloodRun(h, es, cfg).1, es[i].now;
    var log := Admissions(es[..i], answers[..i], es[i].ip);
    FloodIsExact(h, es, cfg, i);
    AdmittedByNow(es[..i], answers[..i], es[i].ip, now);
    RecentIsSpan(log, now, cfg.window);
  }

  /** The penalties of `ip` that expire within the span. */
  function Forgivenesses(es: seq<Event>, ip: string, from: int, length: int): nat {
    if es == [] then 0
    else
      var e := es[|es| - 1];
      Forgivenesses(es[..|es| - 1], ip, from, length)
      + if e.Forgive? && e.ip == ip && from <= e.now < from + length then 1 else 0
  }

  /** The last event of a run and what it adds. */
  lemma LastEvent(h: Hash, es: seq<Event>, cfg: Limits, ip: string)
    requires es != []
    ensures var n := |es| - 1;
            var answers, before := FloodRun(h, es, cfg).1, FloodRun(h, es[..n], cfg).1;
            && Admissions(es, answers, ip) == Logged(Admissions(es[..n], before, ip), es[n], answers[n], ip)
            && Granted(es, answers, ip) == Granted(es[..n], before, ip)
               + (if es[n].Check? && es[n].ip == ip && answers[n] == Recorded then [es[n].now] else [])
  {
    FloodAnswerAt(h, es, cfg, |es| - 1);
  }

  /** Since an address was last forgiven, no window holds more than `limit` of its admissions. */
  lemma {:induction false} LimitSinceForgiven(h: Hash, es: seq<Event>, cfg: Limits, ip: string, from: int)
    requires Ordered(es) && cfg.limit >= 0
    ensures |InSpan(Admissions(es, FloodRun(h, es, cfg).1, ip), from, cfg.window)| <= cfg.limit
  {
    if es != [] {
      var n := |es| - 1;
      var answers := FloodRun(h, es, cfg).1;
      var before := Admissions(es[..n], FloodRun(h, es[..n], cfg).1, ip);
      LimitSinceForgiven(h, es[..n], cfg, ip, from);
      LastEvent(h, es, cfg, ip);
      if es[n].Check? && es[n].ip == ip && answers[n] == Recorded {
        InSpanAppend(before, es[n].now, from, cfg.window);
        FloodAnswerAt(h, es, cfg, n);
        FloodIsExact(h, es, cfg, n);
        if from <= es[n].now < from + cfg.window {
          SpanWithinRecent(before, from, es[n].now, cfg.window);
        }
      }
    }
  }

  // ----- whatever the penalties: one more allowance for each that expires in the span -----

  lemma {:induction false} NothingLater(es: seq<Event>, answers: seq<Answer>, ip: string, from: int, length: int)
    requires |answers| == |es| && forall i | 0 <= i < |es| :: es[i].now < from
    ensures InSpan(Granted(es, answers, ip), from, length) == []
  {
    if es != [] {
      var n := |es| - 1;
      NothingLater(es[..n], answers[..n], ip, from, length);
      InSpanAppend(Granted(es[..n], answers[..n], ip), es[n].now, from, length);
      assert Granted(es[..n], answers[..n], ip) + [] == Granted(es[..n], answers[..n], ip);
    }
  }

  /** The admissions of `ip` in the span: all of them, and those since it was last forgiven. */
  ghost function GrantedIn(h: Hash, es: seq<Event>, cfg: Limits, ip: string, from: int): nat {
    |InSpan(GrantedTo(h, es, cfg, ip), from, cfg.window)|
  }

  ghost function SinceIn(h: Hash, es: seq<Event>, cfg: Limits, ip: string, from: int): nat {
    |InSpan(Admissions(es, FloodRun(h, es, cfg).1, ip), from, cfg.window)|
  }

  /** `limit` for each penalty that expires in the span. */
  function Allowances(es: seq<Event>, ip: string, from: int, cfg: Limits): int {
    if es == [] then 0
    else
      var e := es[|es| - 1];
      Allowances(es[..|es| - 1], ip, from, cfg)
      + if e.Forgive? && e.ip == ip && from <= e.now < from + cfg.window then cfg.limit else 0
  }

  lemma {:induction false} AllowancesCount(es: seq<Event>, ip: string, from: int, cfg: Limits)
    ensures Allowances(es, ip, from, cfg) == cfg.limit * Forgivenesses(es, ip, from, cfg.window)
    ensures cfg.limit >= 0 ==> Allowances(es, ip, from, cfg) >= 0
  {
    if es != [] {
      AllowancesCount(es[..|es| - 1], ip, from, cfg);
    }
  }

  lemma CountsStep(h: Hash, es: seq<Event>, cfg: Limits, ip: string, from: int)
    requires es != []
    ensures var e, front := es[|es| - 1], es[..|es| - 1];
            var g, a, g', a' := GrantedIn(h, front, cfg, ip, from), SinceIn(h, front, cfg, ip, from),
                                GrantedIn(h, es, cfg, ip, from), SinceIn(h, es, cfg, ip, from);
            if e.Forgive? && e.ip == ip then g' == g
            else g' - g == a' - a && (g' == g || from <= e.now < from + cfg.window)
  {
    var n, e := |es| - 1, es[|es| - 1];
    var before := FloodRun(h, es[..n], cfg).1;
    var granted, since := Granted(es[..n], before, ip), Admissions(es[..n], before, ip);
    LastEvent(h, es, cfg, ip);
    InSpanAppend(granted, e.now, from, cfg.window);
    InSpanAppend(since, e.now, from, cfg.window);
    assert granted + [] == granted;
  }

  ghost predicate Before(es: seq<Event>, t: int) {
    forall i | 0 <= i < |es| :: es[i].now < t
  }

  /** As long as the span lasts, the admissions since the last expiry are what is used of the
      current allowance. */
  lemma {:induction false} WithinAllowances(h: Hash, es: seq<Event>, cfg: Limits, ip: string, from: int)
    requires Ordered(es) && cfg.limit >= 0
    ensures GrantedIn(h, es, cfg, ip, from) <= Allowances(es, ip, from, cfg) + cfg.limit
    ensures Before(es, from + cfg.window) ==>
              GrantedIn(h, es, cfg, ip, from) <= Allowances(es, ip, from, cfg) + SinceIn(h, es, cfg, ip, from)
  {
    LimitSinceForgiven(h, es, cfg, ip, from);
    if es != [] {
      var n, e := |es| - 1, es[|es| - 1];
      WithinAllowances(h, es[..n], cfg, ip, from);
      LimitSinceForgiven(h, es[..n], cfg, ip, from);
      CountsStep(h, es, cfg, ip, from);
      assert e.now < from + cfg.window ==> Before(es, from + cfg.window) && Before(es[..n], from + cfg.window);
      assert Before(es, from + cfg.window) ==> e.now < from + cfg.window;
      if e.Forgive? && e.ip == ip && e.now < from {
        NothingLater(es[..n], FloodRun(h, es[..n], cfg).1, ip, from, cfg.window);
        AllowancesCount(es, ip, from, cfg);
      }
    }
  }

  /** Any run: a window holds at most `limit` admissions, and `limit` more for each penalty of
      the address that expires within it. */
  lemma LimitPerForgiveness(h: Hash, es: seq<Event>, cfg: Limits, ip: string, from: int)
    requires Ordered(es) && cfg.limit >= 0
    ensures |InSpan(GrantedTo(h, es, cfg, ip), from, cfg.window)| <=
            cfg.limit * (1 + Forgivenesses(es, ip, from, cfg.window))
  {
    WithinAllowances(h, es, cfg, ip, from);
    AllowancesCount(es, ip, from, cfg);
  }

  // ----- penalties no shorter than the window -----

  /** Every expiry of a penalty of `ip` comes a window or more after its admissions so far. */
  ghost predicate Patient(es: seq<Event>, answers: seq<Answer>, ip: string, window: int)
    requires |answers| == |es|
  {
    forall i, j | 0 <= i < j < |es| && Admits(es[i], answers[i], ip) && es[j].Forgive? && es[j].ip == ip ::
      es[i].now + window <= es[j].now
  }

  predicate Admits(e: Event, answer: Answer, ip: string) {
    e.Check? && e.ip == ip && answer == Recorded
  }

  lemma {:induction false} NoneRecent(es: seq<Event>, answers: seq<Answer>, ip: string, t: int, window: int)
    requires |answers| == |es| && forall i | 0 <= i < |es| && Admits(es[i], answers[i], ip) :: es[i].now + window <= t
    ensures Recent(Granted(es, answers, ip), t, window) == []
  {
    if es != [] {
      var n := |es| - 1;
      NoneRecent(es[..n], answers[..n], ip, t, window);
      assert Admits(es[n], answers[n], ip) ==> es[n].now + window <= t;
      RecentAppend(Granted(es[..n], answers[..n], ip), [es[n].now], t, window);
      assert Granted(es[..n], answers[..n], ip) + [] == Granted(es[..n], answers[..n], ip);
    }
  }

  lemma AdmissionStep(granted: seq<int>, since: seq<int>, t: int, now: int, window: int)
    requires Recent(granted, t, window) == Recent(since, t, window)
    ensures Recent(granted + [now], t, window) == Recent(since + [now], t, window)
  {
    RecentAppend(granted, [now], t, window);
    RecentAppend(since, [now], t, window);
  }

  lemma ForgiveForgetsNothing(h: Hash, es: seq<Event>, cfg: Limits, ip: string, t: int)
    requires es != [] && es[|es| - 1].Forgive? && es[|es| - 1].ip == ip && es[|es| - 1].now <= t
    requires Patient(es, FloodRun(h, es, cfg).1, ip, cfg.window)
    ensures Recent(GrantedTo(h, es, cfg, ip), t, cfg.window) == []
  {
    var n, answers := |es| - 1, FloodRun(h, es, cfg).1;
    FloodAnswerAt(h, es, cfg, n);
    forall i | 0 <= i < n && Admits(es[..n][i], answers[..n][i], ip)
      ensures es[..n][i].now + cfg.window <= t
    {
      assert Admits(es[i], answers[i], ip);
    }
    NoneRecent(es[..n], answers[..n], ip, t, cfg.window);
    LastEvent(h, es, cfg, ip);
    assert GrantedTo(h, es[..n], cfg, ip) + [] == GrantedTo(h, es[..n], cfg, ip);
  }

  ghost function SinceForgiven(h: Hash, es: seq<Event>, cfg: Limits, ip: string): seq<int> {
    Admissions(es, FloodRun(h, es, cfg).1, ip)
  }

  lemma OtherStep(h: Hash, es: seq<Event>, cfg: Limits, ip: string, t: int)
    requires es != [] && !(es[|es| - 1].Forgive? && es[|es| - 1].ip == ip)
    requires var front := es[..|es| - 1];
             Recent(GrantedTo(h, front, cfg, ip), t, cfg.window) == Recent(SinceForgiven(h, front, cfg, ip), t, cfg.window)
    ensures Recent(GrantedTo(h, es, cfg, ip), t, cfg.window) == Recent(SinceForgiven(h, es, cfg, ip), t, cfg.window)
  {
    var front := es[..|es| - 1];
    var granted, since := GrantedTo(h, front, cfg, ip), SinceForgiven(h, front, cfg, ip);
    LastEvent(h, es, cfg, ip);
    AdmissionStep(granted, since, t, es[|es| - 1].now, cfg.window);
    assert granted + [] == granted;
  }

  /** Then forgetting an address forgets nothing that is still recent. */
  lemma {:induction false} PatientForgetsNothing(h: Hash, es: seq<Event>, cfg: Limits, ip: string, t: int)
    requires Ordered(es) && NoLater(es, t) && Patient(es, FloodRun(h, es, cfg).1, ip, cfg.window)
    ensures Recent(GrantedTo(h, es, cfg, ip), t, cfg.window) == Recent(SinceForgiven(h, es, cfg, ip), t, cfg.window)
  {
    if es != [] {
      var e := es[|es| - 1];
      PatientFront(h, es, cfg, ip);
      PatientForgetsNothing(h, es[..|es| - 1], cfg, ip, t);
      if e.Forgive? && e.ip == ip {
        ForgiveForgetsNothing(h, es, cfg, ip, t);
        LastEvent(h, es, cfg, ip);
      } else {
        OtherStep(h, es, cfg, ip, t);
      }
    }
  }

  lemma PatientFront(h: Hash, es: seq<Event>, cfg: Limits, ip: string)
    requires es != [] && Patient(es, FloodRun(h, es, cfg).1, ip, cfg.window)
    ensures Patient(es[..|es| - 1], FloodRun(h, es[..|es| - 1], cfg).1, ip, cfg.window)
  {
    FloodAnswerAt(h, es, cfg, |es| - 1);
    PatientPrefix(es, FloodRun(h, es, cfg).1, ip, cfg.window, |es| - 1);
  }

  lemma PatientPrefix(es: seq<Event>, answers: seq<Answer>, ip: string, window: int, n: nat)
    requires |answers| == |es| && n <= |es| && Patient(es, answers, ip, window)
    ensures Patient(es[..n], answers[..n], ip, window)
  {
  }

  /** Whoever is admitted had fewer than `limit` admissions in the window before. */
  lemma AdmittedBelowLimit(h: Hash, es: seq<Event>, cfg: Limits, ip: string)
    requires Ordered(es) && es != [] && Patient(es, FloodRun(h, es, cfg).1, ip, cfg.window)
    requires Admits(es[|es| - 1], FloodRun(h, es, cfg).1[|es| - 1], ip)
    ensures var n := |es| - 1; |Recent(GrantedTo(h, es[..n], cfg, ip), es[n].now, cfg.window)| < cfg.limit
  {
    var n := |es| - 1;
    FloodAnswerAt(h, es, cfg, n);
    FloodIsExact(h, es, cfg, n);
    PatientFront(h, es, cfg, ip);
    PatientForgetsNothing(h, es[..n], cfg, ip, es[n].now);
  }

  lemma GrantedStep(h: Hash, es: seq<Event>, cfg: Limits, ip: string, from: int)
    requires es != []
    ensures var n := |es| - 1;
            var before, after := InSpan(GrantedTo(h, es[..n], cfg, ip), from, cfg.window),
                                 InSpan(GrantedTo(h, es, cfg, ip), from, cfg.window);
            if Admits(es[n], FloodRun(h, es, cfg).1[n], ip) && from <= es[n].now < from + cfg.window
            then |after| == |before| + 1 else after == before
  {
    var n := |es| - 1;
    var granted := GrantedTo(h, es[..n], cfg, ip);
    LastEvent(h, es, cfg, ip);
    InSpanAppend(granted, es[n].now, from, cfg.window);
    assert granted + [] == granted;
  }

  /** No window holds more than `limit` recorded admissions, over the whole run. */
  lemma {:induction false} FloodAdmitsAtMostLimit(h: Hash, es: seq<Event>, cfg: Limits, ip: string, from: int)
    requires Ordered(es) && cfg.limit >= 0 && Patient(es, FloodRun(h, es, cfg).1, ip, cfg.window)
    ensures |InSpan(GrantedTo(h, es, cfg, ip), from, cfg.window)| <= cfg.limit
  {
    if es != [] {
      var n, e := |es| - 1, es[|es| - 1];
      PatientFront(h, es, cfg, ip);
      FloodAdmitsAtMostLimit(h, es[..n], cfg, ip, from);
      GrantedStep(h, es, cfg, ip, from);
      if Admits(e, FloodRun(h, es, cfg).1[n], ip) && from <= e.now < from + cfg.window {
        AdmittedBelowLimit(h, es, cfg, ip);
        SpanWithinRecent(GrantedTo(h, es[..n], cfg, ip), from, e.now, cfg.window);
      }
    }
  }

  // ----- and otherwise it does fail: the limit can be used again at once -----

  /** Checks of `ip`, all at one time. */
  function Burst(ip: string, now: int, n: nat): (es: seq<Event>)
    ensures |es| == n && forall i | 0 <= i < n :: es[i] == Check(ip, now)
  {
    seq(n, _ => Check(ip, now))
  }

  function Repeated(t: int, n: nat): (ts: seq<int>)
    ensures |ts| == n && forall i | 0 <= i < n :: ts[i] == t
  {
    seq(n, _ => t)
  }

  ghost function ShardAfter(h: Hash, es: seq<Event>, cfg: Limits, ip: string): Hits {
    FloodRun(h, es, cfg).0[ShardOf(h, ip)]
  }

  lemma CheckLast(h: Hash, es: seq<Event>, cfg: Limits, ip: string, now: int)
    ensures var (m, answer) := FloodCheck(ShardAfter(h, es, cfg, ip), ip, now, cfg);
            && ShardAfter(h, es + [Check(ip, now)], cfg, ip) == m
            && GrantedTo(h, es + [Check(ip, now)], cfg, ip) ==
               GrantedTo(h, es, cfg, ip) + if answer == Recorded then [now] else []
  {
    var all := es + [Check(ip, now)];
    assert all[..|es|] == es;
    FloodAnswerAt(h, all, cfg, |es|);
    LastEvent(h, all, cfg, ip);
  }

  /** `all` goes on from `es` with `n` recorded admissions at `now`. */
  ghost predicate Admitted(h: Hash, es: seq<Event>, all: seq<Event>, cfg: Limits, ip: string, now: int, n: nat) {
    var m := ShardAfter(h, all, cfg, ip);
    && |Recent(HitsOf(m, ip), now, cfg.window)| == n
    && |m| <= |ShardAfter(h, es, cfg, ip)| + n
    && GrantedTo(h, all, cfg, ip) == GrantedTo(h, es, cfg, ip) + Repeated(now, n)
  }

  lemma AdmitOneMore(h: Hash, es: seq<Event>, all: seq<Event>, cfg: Limits, ip: string, now: int, n: nat)
    requires Admitted(h, es, all, cfg, ip, now, n) && n < cfg.limit && cfg.window > 0
    requires |ShardAfter(h, es, cfg, ip)| < MAX_KEYS_PER_SHARD
    ensures Admitted(h, es, all + [Check(ip, now)], cfg, ip, now, n + 1)
  {
    var m := ShardAfter(h, all, cfg, ip);
    OneMoreIsRecorded(m, ip, now, cfg);
    CheckLast(h, all, cfg, ip, now);
    assert Repeated(now, n + 1) == Repeated(now, n) + [now];
  }

  lemma NothingAdmitted(h: Hash, es: seq<Event>, cfg: Limits, ip: string, now: int)
    requires ip !in ShardAfter(h, es, cfg, ip)
    ensures Admitted(h, es, es, cfg, ip, now, 0)
  {
    assert Repeated(now, 0) == [];
    assert GrantedTo(h, es, cfg, ip) + [] == GrantedTo(h, es, cfg, ip);
  }

  /** Right after an expiry, in a shard with room, a burst is admitted up to the limit. */
  lemma {:induction false} BurstIsRecorded(h: Hash, es: seq<Event>, cfg: Limits, ip: string, now: int, n: nat)
    requires cfg.window > 0 && n <= cfg.limit
    requires ip !in ShardAfter(h, es, cfg, ip) && |ShardAfter(h, es, cfg, ip)| < MAX_KEYS_PER_SHARD
    ensures Admitted(h, es, es + Burst(ip, now, n), cfg, ip, now, n)
  {
    if n == 0 {
      NothingAdmitted(h, es, cfg, ip, now);
      assert es + Burst(ip, now, n) == es;
    } else {
      BurstIsRecorded(h, es, cfg, ip, now, n - 1);
      AdmitOneMore(h, es, es + Burst(ip, now, n - 1), cfg, ip, now, n - 1);
      BurstStep(es, ip, now, n);
    }
  }

  lemma BurstStep(es: seq<Event>, ip: string, now: int, n: nat)
    requires n > 0
    ensures es + Burst(ip, now, n) == es + Burst(ip, now, n - 1) + [Check(ip, now)]
  {
  }

  lemma OneMoreIsRecorded(m: Hits, ip: string, now: int, cfg: Limits)
    requires cfg.window > 0 && |Recent(HitsOf(m, ip), now, cfg.window)| < cfg.limit
    requires Recent(HitsOf(m, ip), now, cfg.window) == [] ==> |m| < MAX_KEYS_PER_SHARD
    ensures var (m', answer) := FloodCheck(m, ip, now, cfg);
            && answer == Recorded && |m'| <= |m| + 1
            && |Recent(HitsOf(m', ip), now, cfg.window)| == |Recent(HitsOf(m, ip), now, cfg.window)| + 1
  {
    var m' := FloodCheck(m, ip, now, cfg).0;
    assert m'.Keys == m.Keys + {ip};
    RecordedRecent(HitsOf(m, ip), HitsOf(m, ip), now, now, cfg.window);
    RecentAppend(HitsOf(m, ip), [now], now, cfg.window);
  }

  lemma {:induction false} InSpanAtLeast(ts: seq<int>, from: int, length: int, i: nat, tail: nat)
    requires i < tail <= |ts| && from <= ts[i] < from + length
    requires forall k | tail <= k < |ts| :: from <= ts[k] < from + length
    ensures |InSpan(ts, from, length)| >= |ts| - tail + 1
    decreases |ts|
  {
    if tail < |ts| {
      InSpanAtLeast(ts[..|ts| - 1], from, length, i, tail);
    } else if i < |ts| - 1 {
      InSpanAtLeast(ts[..|ts| - 1], from, length, i, tail - 1);
    }
  }

  /** A penalty that expires less than a window after an admission makes the bound fail, in a
      shard with room: the run can be continued so that one window holds `limit + 1`. */
  lemma ImpatienceExceedsTheLimit(h: Hash, es: seq<Event>, cfg: Limits, ip: string, now: int, i: nat)
    requires cfg.window > 0 && cfg.limit >= 0
    requires |ShardAfter(h, es, cfg, ip)| < MAX_KEYS_PER_SHARD
    requires var granted := GrantedTo(h, es, cfg, ip); i < |granted| && granted[i] <= now < granted[i] + cfg.window
    ensures var from := GrantedTo(h, es, cfg, ip)[i];
            var all := es + [Forgive(ip, now)] + Burst(ip, now, cfg.limit);
            |InSpan(GrantedTo(h, all, cfg, ip), from, cfg.window)| > cfg.limit
  {
    var freed := es + [Forgive(ip, now)];
    var granted := GrantedTo(h, es, cfg, ip);
    ForgiveLast(h, es, cfg, ip, now);
    BurstIsRecorded(h, freed, cfg, ip, now, cfg.limit);
    var all := GrantedTo(h, freed + Burst(ip, now, cfg.limit), cfg, ip);
    assert all == granted + Repeated(now, cfg.limit);
    InSpanAtLeast(all, granted[i], cfg.window, i, |granted|);
  }

  lemma {:induction false} InSpanIsNoLonger(ts: seq<int>, from: int, length: int)
    ensures |InSpan(ts, from, length)| <= |ts|
  {
    if ts != [] {
      InSpanIsNoLonger(ts[..|ts| - 1], from, length);
    }
  }

  /** At most one admission for each check. */
  lemma {:induction false} GrantedIsNoLonger(es: seq<Event>, answers: seq<Answer>, ip: string)
    requires |answers| == |es|
    ensures |Granted(es, answers, ip)| <= |es|
    ensures es != [] && !es[|es| - 1].Check? ==> |Granted(es, answers, ip)| <= |es| - 1
  {
    if es != [] {
      GrantedIsNoLonger(es[..|es| - 1], answers[..|es| - 1], ip);
    }
  }

  lemma ForgiveLast(h: Hash, es: seq<Event>, cfg: Limits, ip: string, now: int)
    ensures var freed := es + [Forgive(ip, now)];
            && GrantedTo(h, freed, cfg, ip) == GrantedTo(h, es, cfg, ip)
            && ip !in ShardAfter(h, freed, cfg, ip)
            && |ShardAfter(h, freed, cfg, ip)| <= |ShardAfter(h, es, cfg, ip)|
  {
    var freed, m := es + [Forgive(ip, now)], ShardAfter(h, es, cfg, ip);
    assert freed[..|es|] == es;
    LastEvent(h, freed, cfg, ip);
    assert ShardAfter(h, freed, cfg, ip) == m - {ip};
    assert (m - {ip}).Keys <= m.Keys;
    SubsetSize((m - {ip}).Keys, m.Keys);
  }

  /** For example, with a limit of one, a window of 100 and a penalty that expires after 1, the
      window from 0 to 99 holds two admissions. */
  lemma ShortPenaltyRenewsTheLimit(h: Hash)
    ensures var cfg := Limits(1, 100);
            var es := [Check("a", 0), Forgive("a", 1), Check("a", 1)];
            |InSpan(GrantedTo(h, es, cfg, "a"), 0, 100)| == 2
  {
    var cfg, ip, n := Limits(1, 100), "a", 1;
    assert ShardAfter(h, [], cfg, ip) == map[];
    BurstIsRecorded(h, [], cfg, ip, 0, n);
    var es := [Check(ip, 0)];
    assert [] + Burst(ip, 0, n) == es;
    assert GrantedTo(h, es, cfg, ip) == [0];
    ImpatienceExceedsTheLimit(h, es, cfg, ip, 1, 0);
    assert es + [Forgive(ip, 1)] + Burst(ip, 1, n) == [Check(ip, 0), Forgive(ip, 1), Check(ip, 1)];
    var all := [Check(ip, 0), Forgive(ip, 1), Check(ip, 1)];
    InSpanIsNoLonger(GrantedTo(h, all, cfg, ip), 0, 100);
    GrantedIsNoLonger(all, FloodRun(h, all, cfg).1, ip);
    assert all[..2] == [Check(ip, 0), Forgive(ip, 1)];
    GrantedIsNoLonger(all[..2], FloodRun(h, all, cfg).1[..2], ip);
  }

  // ----- the handler's visits to the limiter -----

  /** A request that reaches the limiter, with the penalty another limit imposes on it, if any,
      and the penalty for exceeding this one; or the background clean-up. */
  datatype Visit = Request(ip: string, now: int, other: Option<int>, penalty: int) | Sweep(now: int)

  /** What the limiter was asked so far, and the penalties now in force. */
  datatype Guard = Guard(events: seq<Event>, penalties: map<string, int>)

  /** What a visit makes of the guard, given whether its check, if it gets to one, is rejected. */
  function Next(g: Guard, v: Visit, rejected: bool): Guard {
    match v
    case Sweep(now) =>
      Guard(g.events + [SweepFlood(now)], map ip | ip in g.penalties && now <= g.penalties[ip] :: g.penalties[ip])
    case Request(ip, now, other, penalty) =>
      if ip in g.penalties && now <= g.penalties[ip] then g
      else if other.Some? then Guard(Freed(g, v), g.penalties[ip := now + other.value])
      else Guard(Freed(g, v) + [Check(ip, now)],
                 if rejected then g.penalties[ip := now + penalty] else g.penalties - {ip})
  }

  /** A penalty found expired is forgotten first. */
  function Freed(g: Guard, v: Visit): seq<Event>
    requires v.Request?
  {
    if v.ip in g.penalties then g.events + [Forgive(v.ip, v.now)] else g.events
  }

  function Visited(h: Hash, g: Guard, v: Visit, cfg: Limits): Guard {
    Next(g, v, v.Request? && Rejects(h, Freed(g, v) + [Check(v.ip, v.now)], cfg))
  }

  predicate Rejects(h: Hash, es: seq<Event>, cfg: Limits)
    requires es != []
  {
    FloodRun(h, es, cfg).1[|es| - 1] == Rejected
  }

  function Visits(h: Hash, vs: seq<Visit>, cfg: Limits): Guard {
    if vs == [] then Guard([], map[]) else Visited(h, Visits(h, vs[..|vs| - 1], cfg), vs[|vs| - 1], cfg)
  }

  /** Every penalty lasts to the last tick of the window at least. */
  predicate IsLong(v: Visit, window: int) {
    v.Request? ==> v.penalty + 1 >= window && (v.other.Some? ==> v.other.value + 1 >= window)
  }

  ghost predicate InTime(vs: seq<Visit>) {
    forall i, j | 0 <= i < j < |vs| :: vs[i].now <= vs[j].now
  }

  ghost predicate LongPenalties(vs: seq<Visit>, window: int) {
    InTime(vs) && forall v <- vs :: IsLong(v, window)
  }

  ghost predicate ChecksEnd(es: seq<Event>, ip: string, t: int) {
    forall i | 0 <= i < |es| && es[i].Check? && es[i].ip == ip :: es[i].now <= t
  }

  ghost predicate Spaced(es: seq<Event>, window: int) {
    forall j | 0 <= j < |es| && es[j].Forgive? :: ChecksEnd(es[..j], es[j].ip, es[j].now - window)
  }

  /** A penalty in force is over, and can be forgotten, a window or more after the last check of
      its address: the tick after it ends. */
  ghost predicate Guarded(g: Guard, now: int, window: int) {
    && Ordered(g.events) && NoLater(g.events, now) && Spaced(g.events, window)
    && forall ip <- g.penalties :: ChecksEnd(g.events, ip, g.penalties[ip] + 1 - window)
  }

  lemma AppendEvent(es: seq<Event>, e: Event, now: int, window: int)
    requires Ordered(es) && NoLater(es, now) && Spaced(es, window) && now <= e.now
    requires e.Forgive? ==> ChecksEnd(es, e.ip, e.now - window)
    ensures Ordered(es + [e]) && NoLater(es + [e], e.now) && Spaced(es + [e], window)
    ensures forall ip, t :: ChecksEnd(es, ip, t) && !(e.Check? && e.ip == ip) ==> ChecksEnd(es + [e], ip, t)
  {
    assert forall j | 0 <= j <= |es| :: (es + [e])[..j] == es[..j];
    assert es[..|es|] == es;
  }

  lemma FreedKeepsGuard(g: Guard, v: Visit, now: int, window: int)
    requires Guarded(g, now, window) && now <= v.now && v.Request?
    requires v.ip in g.penalties ==> g.penalties[v.ip] < v.now
    ensures Guarded(Guard(Freed(g, v), g.penalties), v.now, window)
  {
    if v.ip in g.penalties {
      AppendEvent(g.events, Forgive(v.ip, v.now), now, window);
    }
  }

  lemma PenaltyKeepsGuard(g: Guard, ip: string, now: int, penalty: int, window: int)
    requires Guarded(g, now, window) && penalty + 1 >= window
    ensures Guarded(Guard(g.events, g.penalties[ip := now + penalty]), now, window)
  {
  }

  lemma CheckKeepsGuard(g: Guard, ip: string, now: int, window: int)
    requires Guarded(g, now, window)
    ensures Guarded(Guard(g.events + [Check(ip, now)], g.penalties - {ip}), now, window)
  {
    AppendEvent(g.events, Check(ip, now), now, window);
  }

  lemma VisitKeepsGuard(g: Guard, v: Visit, rejected: bool, now: int, window: int)
    requires Guarded(g, now, window) && now <= v.now
    requires IsLong(v, window)
    ensures Guarded(Next(g, v, rejected), v.now, window)
  {
    if v.Sweep? {
      AppendEvent(g.events, SweepFlood(v.now), now, window);
    } else if !(v.ip in g.penalties && v.now <= g.penalties[v.ip]) {
      FreedKeepsGuard(g, v, now, window);
      var freed := Guard(Freed(g, v), g.penalties);
      if v.other.Some? {
        PenaltyKeepsGuard(freed, v.ip, v.now, v.other.value, window);
      } else {
        CheckKeepsGuard(freed, v.ip, v.now, window);
        var checked := Guard(freed.events + [Check(v.ip, v.now)], g.penalties - {v.ip});
        PenaltyKeepsGuard(checked, v.ip, v.now, v.penalty, window);
        assert (g.penalties - {v.ip})[v.ip := v.now + v.penalty] == g.penalties[v.ip := v.now + v.penalty];
      }
    }
  }

  lemma {:induction false} VisitsKeepGuard(h: Hash, vs: seq<Visit>, cfg: Limits)
    requires LongPenalties(vs, cfg.window)
    ensures vs != [] ==> Guarded(Visits(h, vs, cfg), vs[|vs| - 1].now, cfg.window)
  {
    if vs != [] {
      var n := |vs| - 1;
      VisitsKeepGuard(h, vs[..n], cfg);
      assert vs[n] in vs;
      var g, v := Visits(h, vs[..n], cfg), vs[n];
      var rejected := v.Request? && Rejects(h, Freed(g, v) + [Check(v.ip, v.now)], cfg);
      VisitKeepsGuard(g, v, rejected, if n > 0 then vs[n - 1].now else v.now, cfg.window);
    }
  }

  /** The recorded admissions of `ip` in the window from `from`, after these visits. */
  ghost function SpanAfter(h: Hash, vs: seq<Visit>, cfg: Limits, ip: string, from: int): nat {
    |InSpan(GrantedTo(h, Visits(h, vs, cfg).events, cfg, ip), from, cfg.window)|
  }

  /** With penalties as long as the window, or one tick shorter, however requests and clean-ups
      come, no window ever holds more than `limit` recorded admissions of an address. */
  lemma HandlerAdmitsAtMostLimit(h: Hash, vs: seq<Visit>, cfg: Limits, ip: string, from: int)
    requires LongPenalties(vs, cfg.window) && cfg.limit >= 0
    ensures SpanAfter(h, vs, cfg, ip, from) <= cfg.limit
  {
    var es := Visits(h, vs, cfg).events;
    VisitsKeepGuard(h, vs, cfg);
    forall i, j | 0 <= i < j < |es| && Admits(es[i], FloodRun(h, es, cfg).1[i], ip) && es[j].Forgive? && es[j].ip == ip
      ensures es[i].now + cfg.window <= es[j].now
    {
      assert ChecksEnd(es[..j], es[j].ip, es[j].now - cfg.window);
      assert es[..j][i] == es[i];
    }
    FloodAdmitsAtMostLimit(h, es, cfg, ip, from);
  }

  // ----- shorter penalties do not -----

  /** `n` requests of one address at time 0. */
  function Requests(ip: string, penalty: int, n: nat): (vs: seq<Visit>)
    ensures |vs| == n && forall i | 0 <= i < n :: vs[i] == Request(ip, 0, None, penalty)
  {
    seq(n, _ => Request(ip, 0, None, penalty))
  }

  /** One more than the limit at time 0, and another as soon as the penalty is over. */
  function Returning(ip: string, penalty: int, limit: nat): seq<Visit> {
    Requests(ip, penalty, limit + 1) + [Request(ip, penalty + 1, None, penalty)]
  }

  lemma RejectsIff(h: Hash, es: seq<Event>, cfg: Limits, ip: string, now: int)
    ensures Rejects(h, es + [Check(ip, now)], cfg) <==>
            |Recent(HitsOf(ShardAfter(h, es, cfg, ip), ip), now, cfg.window)| >= cfg.limit
  {
    var all := es + [Check(ip, now)];
    assert all[..|es|] == es;
    FloodAnswerAt(h, all, cfg, |es|);
  }

  lemma VisitLast(h: Hash, vs: seq<Visit>, v: Visit, cfg: Limits)
    ensures Visits(h, vs + [v], cfg) == Visited(h, Visits(h, vs, cfg), v, cfg)
  {
    assert (vs + [v])[..|vs|] == vs;
  }

  lemma BurstAlone(h: Hash, cfg: Limits, ip: string, n: nat)
    requires cfg.window > 0 && n <= cfg.limit
    ensures Admitted(h, [], Burst(ip, 0, n), cfg, ip, 0, n)
  {
    assert ShardAfter(h, [], cfg, ip) == map[];
    BurstIsRecorded(h, [], cfg, ip, 0, n);
    assert [] + Burst(ip, 0, n) == Burst(ip, 0, n);
  }

  /** The first `n` requests leave just their checks behind. */
  ghost predicate LetIn(h: Hash, cfg: Limits, ip: string, penalty: int, n: nat) {
    Visits(h, Requests(ip, penalty, n), cfg) == Guard(Burst(ip, 0, n), map[])
  }

  lemma RequestsStep(ip: string, penalty: int, n: nat)
    ensures Requests(ip, penalty, n + 1) == Requests(ip, penalty, n) + [Request(ip, 0, None, penalty)]
    ensures Burst(ip, 0, n + 1) == Burst(ip, 0, n) + [Check(ip, 0)]
    ensures Requests(ip, penalty, 0) == [] && Burst(ip, 0, 0) == []
  {
  }

  lemma OneMoreRequest(h: Hash, cfg: Limits, ip: string, penalty: int, n: nat)
    requires cfg.window > 0 && n < cfg.limit && LetIn(h, cfg, ip, penalty, n)
    ensures LetIn(h, cfg, ip, penalty, n + 1)
  {
    BurstAlone(h, cfg, ip, n);
    RequestsStep(ip, penalty, n);
    VisitLast(h, Requests(ip, penalty, n), Request(ip, 0, None, penalty), cfg);
    RejectsIff(h, Burst(ip, 0, n), cfg, ip, 0);
  }

  lemma {:induction false} RequestsAreAdmitted(h: Hash, cfg: Limits, ip: string, penalty: int, n: nat)
    requires cfg.window > 0 && n <= cfg.limit
    ensures LetIn(h, cfg, ip, penalty, n)
  {
    if n == 0 {
      RequestsStep(ip, penalty, n);
    } else {
      RequestsAreAdmitted(h, cfg, ip, penalty, n - 1);
      OneMoreRequest(h, cfg, ip, penalty, n - 1);
    }
  }

  /** The request over the limit is punished, and the next one forgiven. */
  lemma ReturningEvents(h: Hash, cfg: Limits, ip: string, penalty: int)
    requires cfg.window > 0 && cfg.limit >= 0 && penalty >= 0
    ensures Visits(h, Returning(ip, penalty, cfg.limit), cfg).events ==
            Burst(ip, 0, cfg.limit) + [Check(ip, 0)] + [Forgive(ip, penalty + 1)] + [Check(ip, penalty + 1)]
  {
    var n, v, w := cfg.limit, Request(ip, 0, None, penalty), Request(ip, penalty + 1, None, penalty);
    RequestsAreAdmitted(h, cfg, ip, penalty, n);
    BurstAlone(h, cfg, ip, n);
    RejectsIff(h, Burst(ip, 0, n), cfg, ip, 0);
    VisitLast(h, Requests(ip, penalty, n), v, cfg);
    assert Requests(ip, penalty, n) + [v] == Requests(ip, penalty, n + 1);
    VisitLast(h, Requests(ip, penalty, n + 1), w, cfg);
    var g := Guard(Burst(ip, 0, n) + [Check(ip, 0)], map[ip := penalty]);
    assert Visits(h, Requests(ip, penalty, n + 1), cfg) == g;
    assert Freed(g, w) == g.events + [Forgive(ip, penalty + 1)];
  }

  lemma OneAddressOnly(h: Hash, es: seq<Event>, cfg: Limits, ip: string)
    requires forall i | 0 <= i < |es| :: es[i].Check? ==> es[i].ip == ip
    ensures |ShardAfter(h, es, cfg, ip)| <= 1
  {
    var m := ShardAfter(h, es, cfg, ip);
    StoredKeysAreAddresses(h, es, cfg, ShardOf(h, ip));
    assert m.Keys <= {ip};
    SubsetSize(m.Keys, {ip});
  }

  lemma ReturningGranted(h: Hash, cfg: Limits, ip: string, penalty: int)
    requires cfg.window > 0 && cfg.limit >= 1 && penalty >= 0
    ensures GrantedTo(h, Visits(h, Returning(ip, penalty, cfg.limit), cfg).events, cfg, ip) ==
            Repeated(0, cfg.limit) + [penalty + 1]
  {
    var n, t := cfg.limit, penalty + 1;
    var punished := Burst(ip, 0, n) + [Check(ip, 0)];
    var freed := punished + [Forgive(ip, t)];
    BurstAlone(h, cfg, ip, n);
    CheckLast(h, Burst(ip, 0, n), cfg, ip, 0);
    assert GrantedTo(h, [], cfg, ip) == [] && [] + Repeated(0, n) == Repeated(0, n) && Repeated(0, n) + [] == Repeated(0, n);
    OneAddressOnly(h, punished, cfg, ip);
    ForgiveLast(h, punished, cfg, ip, t);
    OneMoreIsRecorded(ShardAfter(h, freed, cfg, ip), ip, t, cfg);
    CheckLast(h, freed, cfg, ip, t);
    ReturningEvents(h, cfg, ip, penalty);
  }

  /** All penalties are alike. */
  ghost predicate Uniform(vs: seq<Visit>, penalty: int) {
    InTime(vs) && forall v <- vs :: v.Request? ==> v.penalty == penalty && (v.other.Some? ==> v.other.value == penalty)
  }

  /** No run of visits with this penalty puts more than `limit` admissions into a window. */
  ghost predicate KeepsLimit(h: Hash, cfg: Limits, penalty: int) {
    forall vs, ip, from :: Uniform(vs, penalty) ==> SpanAfter(h, vs, cfg, ip, from) <= cfg.limit
  }

  lemma ShortPenaltyExceeds(h: Hash, cfg: Limits, ip: string, penalty: int)
    requires cfg.limit >= 1 && 0 <= penalty && penalty + 1 < cfg.window
    ensures Uniform(Returning(ip, penalty, cfg.limit), penalty)
    ensures SpanAfter(h, Returning(ip, penalty, cfg.limit), cfg, ip, 0) > cfg.limit
  {
    var granted := Repeated(0, cfg.limit) + [penalty + 1];
    ReturningGranted(h, cfg, ip, penalty);
    InSpanAtLeast(granted, 0, cfg.window, 0, 1);
  }

  /** Exactly the penalties that last to the last tick of the window keep every run within the
      limit, whatever the hash. */
  lemma PenaltyKeepsLimitIff(h: Hash, cfg: Limits, penalty: int)
    requires cfg.limit >= 1 && penalty >= 0
    ensures KeepsLimit(h, cfg, penalty) <==> penalty + 1 >= cfg.window
  {
    if penalty + 1 >= cfg.window {
      forall vs, ip, from | Uniform(vs, penalty)
        ensures SpanAfter(h, vs, cfg, ip, from) <= cfg.limit
      {
        HandlerAdmitsAtMostLimit(h, vs, cfg, ip, from);
      }
    } else {
      ShortPenaltyExceeds(h, cfg, "a", penalty);
    }
  }

  // ----- the key cap -----

  /** A check is admitted off the record exactly when the limit is positive, its shard is full, and
      no recorded admission of its address since it was last forgiven lies within the window. */
  lemma UnrecordedIff(h: Hash, es: seq<Event>, cfg: Limits, i: nat)
    requires Ordered(es) && i < |es| && es[i].Check?
    ensures var answers, front, e := FloodRun(h, es, cfg).1, es[..i], es[i];
            answers[i] == Unrecorded <==>
            && cfg.limit > 0
            && |ShardAfter(h, front, cfg, e.ip)| >= MAX_KEYS_PER_SHARD
            && Recent(Admissions(front, answers[..i], e.ip), e.now, cfg.window) == []
  {
    FloodAnswerAt(h, es, cfg, i);
    FloodInvariant(h, es[..i], cfg, es[i].ip, es[i].now);
  }

  /** One check of each address, all at time 0. */
  function Crowd(ips: seq<string>): (es: seq<Event>)
    ensures |es| == |ips| && forall i | 0 <= i < |ips| :: es[i] == Check(ips[i], 0)
  {
    seq(|ips|, i requires 0 <= i < |ips| => Check(ips[i], 0))
  }

  /** Different addresses that all belong to shard `s`. */
  ghost predicate Neighbours(h: Hash, ips: seq<string>, s: nat) {
    && (forall i, j | 0 <= i < j < |ips| :: ips[i] != ips[j])
    && forall i | 0 <= i < |ips| :: ShardOf(h, ips[i]) == s
  }

  lemma FirstCheck(m: Hits, ip: string, cfg: Limits)
    requires cfg.limit >= 1 && ip !in m && |m| < MAX_KEYS_PER_SHARD
    ensures FloodCheck(m, ip, 0, cfg) == (m[ip := [0]], Recorded)
  {
    assert HitsOf(m, ip) == [] && [] + [0] == [0];
  }

  /** The map holds just these addresses, each with one timestamp. */
  ghost predicate Holds(m: Hits, ips: seq<string>) {
    |m| == |ips| && (forall k :: k in m <==> k in ips) && forall k <- m :: m[k] == [0]
  }

  lemma HoldsOneMore(m: Hits, ips: seq<string>, last: string)
    requires Holds(m, ips) && last !in ips
    ensures last !in m && |m| == |ips| && Holds(m[last := [0]], ips + [last])
  {
    assert m[last := [0]].Keys == m.Keys + {last};
  }

  lemma CrowdStep(h: Hash, cfg: Limits, ips: seq<string>, last: string, ip: string)
    requires cfg.limit >= 1 && |ips| < MAX_KEYS_PER_SHARD && last !in ips && ShardOf(h, last) == ShardOf(h, ip)
    requires Holds(ShardAfter(h, Crowd(ips), cfg, ip), ips)
    ensures Holds(ShardAfter(h, Crowd(ips) + [Check(last, 0)], cfg, ip), ips + [last])
  {
    var m := ShardAfter(h, Crowd(ips), cfg, last);
    CheckLast(h, Crowd(ips), cfg, last, 0);
    FirstCheck(m, last, cfg);
    HoldsOneMore(m, ips, last);
  }

  lemma CrowdGrows(h: Hash, ips: seq<string>, s: nat)
    requires ips != [] && Neighbours(h, ips, s)
    ensures var front, last := ips[..|ips| - 1], ips[|ips| - 1];
            && Neighbours(h, front, s) && last !in front && ShardOf(h, last) == s
            && ips == front + [last] && Crowd(ips) == Crowd(front) + [Check(last, 0)]
  {
  }

  lemma {:induction false} CrowdFillsShard(h: Hash, cfg: Limits, ips: seq<string>, ip: string)
    requires Neighbours(h, ips, ShardOf(h, ip)) && cfg.limit >= 1 && |ips| <= MAX_KEYS_PER_SHARD
    ensures Holds(ShardAfter(h, Crowd(ips), cfg, ip), ips)
  {
    if ips == [] {
      assert Crowd(ips) == [];
    } else {
      CrowdGrows(h, ips, ShardOf(h, ip));
      CrowdFillsShard(h, cfg, ips[..|ips| - 1], ip);
      CrowdStep(h, cfg, ips[..|ips| - 1], ips[|ips| - 1], ip);
    }
  }

  /** A check of `ip` that comes next is admitted off the record. */
  ghost predicate NextIsUnrecorded(h: Hash, es: seq<Event>, cfg: Limits, ip: string, now: int) {
    FloodRun(h, es + [Check(ip, now)], cfg).1[|es|] == Unrecorded
  }

  lemma FullShardAdmits(h: Hash, es: seq<Event>, cfg: Limits, ip: string, now: int)
    requires cfg.limit >= 1 && |ShardAfter(h, es, cfg, ip)| >= MAX_KEYS_PER_SHARD
    requires Recent(HitsOf(ShardAfter(h, es, cfg, ip), ip), now, cfg.window) == []
    ensures NextIsUnrecorded(h, es, cfg, ip, now)
  {
    var all := es + [Check(ip, now)];
    assert all[..|es|] == es;
    FloodAnswerAt(h, all, cfg, |es|);
  }

  /** It does happen, whatever the hash: once a shard has seen as many addresses as it has room
      for, a new one is admitted off the record, and so is a stored one whose timestamps are over. */
  lemma FullShardAdmitsUnrecorded(h: Hash, cfg: Limits, ips: seq<string>, ip: string)
    requires cfg.limit >= 1 && cfg.window >= 1 && |ips| == MAX_KEYS_PER_SHARD
    requires Neighbours(h, ips, ShardOf(h, ip))
    ensures ip !in ips ==> NextIsUnrecorded(h, Crowd(ips), cfg, ip, 0)
    ensures ip in ips ==> NextIsUnrecorded(h, Crowd(ips), cfg, ip, cfg.window)
  {
    var m := ShardAfter(h, Crowd(ips), cfg, ip);
    CrowdFillsShard(h, cfg, ips, ip);
    RecentAppend([], [0], cfg.window, cfg.window);
    assert HitsOf(m, ip) == if ip in ips then [] + [0] else [];
    FullShardAdmits(h, Crowd(ips), cfg, ip, if ip in ips then cfg.window else 0);
  }

  /** The addresses of a set that belong to shard `s`. */
  function InShard(h: Hash, ips: set<string>, s: nat): set<string> {
    set ip | ip in ips && ShardOf(h, ip) == s
  }

  /** The addresses checked so far, all or those of one shard. */
  function Addresses(es: seq<Event>): set<string> {
    set i | 0 <= i < |es| && es[i].Check? :: es[i].ip
  }

  function ShardAddresses(h: Hash, es: seq<Event>, s: nat): set<string> {
    InShard(h, Addresses(es), s)
  }

  /** The addresses of the first `k` shards. */
  ghost function LowAddresses(h: Hash, ips: set<string>, k: nat): set<string> {
    set ip | ip in ips && ShardOf(h, ip) < k
  }

  lemma {:induction false} ShardsAddUp(h: Hash, ips: set<string>, k: nat, cap: nat)
    requires forall s: nat | s < k :: |InShard(h, ips, s)| <= cap
    ensures |LowAddresses(h, ips, k)| <= k * cap
  {
    if k == 0 {
      assert LowAddresses(h, ips, k) == {};
    } else {
      var low, mine := LowAddresses(h, ips, k - 1), InShard(h, ips, k - 1);
      ShardsAddUp(h, ips, k - 1, cap);
      assert LowAddresses(h, ips, k) <= low + mine;
      SubsetSize(LowAddresses(h, ips, k), low + mine);
      assert k * cap == (k - 1) * cap + cap;
    }
  }

  lemma {:induction false} PickDistinct(ips: set<string>, n: nat) returns (picked: seq<string>)
    requires n <= |ips|
    ensures |picked| == n && (forall i | 0 <= i < n :: picked[i] in ips)
    ensures forall i, j | 0 <= i < j < n :: picked[i] != picked[j]
  {
    if n == 0 {
      picked := [];
    } else {
      picked := PickDistinct(ips, n - 1);
      var taken := set i | 0 <= i < n - 1 :: picked[i];
      TakenIsSmall(picked, taken);
      assert exists x :: x in ips && x !in taken by {
        if forall x | x in ips :: x in taken {
          SubsetSize(ips, taken);
        }
      }
      var x :| x in ips && x !in taken;
      picked := picked + [x];
    }
  }

  lemma {:induction false} TakenIsSmall(xs: seq<string>, taken: set<string>)
    requires taken == set i | 0 <= i < |xs| :: xs[i]
    ensures |taken| <= |xs|
  {
    if xs != [] {
      var n := |xs| - 1;
      var before := set i | 0 <= i < n :: xs[..n][i];
      TakenIsSmall(xs[..n], before);
      assert taken == before + {xs[n]};
    }
  }

  /** Whatever the hash, among more addresses than all shards together have room for there are
      some whose checks, one of each, fill a shard, so that the next one is off the record. */
  lemma EveryHashFillsUp(h: Hash, cfg: Limits, ips: set<string>, shards: nat, room: nat) returns (crowd: seq<string>, next: string)
    requires cfg.limit >= 1 && cfg.window >= 1 && shards == SHARDS && room == MAX_KEYS_PER_SHARD
    requires |ips| > shards * room
    ensures |crowd| == room && next in ips && forall i | 0 <= i < |crowd| :: crowd[i] in ips
    ensures NextIsUnrecorded(h, Crowd(crowd), cfg, next, 0)
  {
    if forall s: nat | s < shards :: |InShard(h, ips, s)| <= room {
      assert LowAddresses(h, ips, shards) == ips;
      ShardsAddUp(h, ips, shards, room);
    }
    var s: nat :| s < shards && |InShard(h, ips, s)| > room;
    var picked := PickDistinct(InShard(h, ips, s), room + 1);
    crowd, next := picked[..room], picked[room];
    assert Neighbours(h, crowd, ShardOf(h, next)) && next !in crowd;
    FullShardAdmitsUnrecorded(h, cfg, crowd, next);
  }

  lemma AddressesGrow(h: Hash, es: seq<Event>, i: nat, s: nat)
    requires i < |es|
    ensures ShardAddresses(h, es[..i], s) <= ShardAddresses(h, es, s) && Addresses(es[..i]) <= Addresses(es)
    ensures es[i].Check? ==> es[i].ip in Addresses(es) && es[i].ip in ShardAddresses(h, es, ShardOf(h, es[i].ip))
  {
  }

  lemma StepStoresItsAddress(h: Hash, st: seq<Hits>, e: Event, cfg: Limits, s: nat)
    requires |st| == SHARDS && s < SHARDS
    ensures FloodStep(h, st, e, cfg).0[s].Keys <= st[s].Keys + if e.Check? && ShardOf(h, e.ip) == s then {e.ip} else {}
  {
  }

  lemma {:induction false} StoredKeysAreAddresses(h: Hash, es: seq<Event>, cfg: Limits, s: nat)
    requires s < SHARDS
    ensures FloodRun(h, es, cfg).0[s].Keys <= ShardAddresses(h, es, s)
  {
    if es != [] {
      var n := |es| - 1;
      StoredKeysAreAddresses(h, es[..n], cfg, s);
      StepStoresItsAddress(h, FloodRun(h, es[..n], cfg).0, es[n], cfg, s);
      AddressesGrow(h, es, n, s);
    }
  }

  /** A shard that is asked about fewer addresses than it has room for records every admission. */
  lemma FewAddressesAreAllRecorded(h: Hash, es: seq<Event>, cfg: Limits, i: nat)
    requires Ordered(es) && i < |es| && es[i].Check?
    requires |ShardAddresses(h, es, ShardOf(h, es[i].ip))| < MAX_KEYS_PER_SHARD
    ensures FloodRun(h, es, cfg).1[i] != Unrecorded
  {
    var s := ShardOf(h, es[i].ip);
    UnrecordedIff(h, es, cfg, i);
    StoredKeysAreAddresses(h, es[..i], cfg, s);
    AddressesGrow(h, es, i, s);
    SubsetSize(FloodRun(h, es[..i], cfg).0[s].Keys, ShardAddresses(h, es, s));
  }

  // ----- agreement with the naive limiter -----

  lemma {:induction false} MemoryAnswerAt(es: seq<Event>, cfg: Limits, i: nat)
    requires i < |es|
    ensures MemoryRun(es, cfg).1[i] == MemoryStep(MemoryRun(es[..i], cfg).0, es[i], cfg).1
  {
    var n := |es| - 1;
    var answers := MemoryRun(es[..n], cfg).1;
    if i < n {
      MemoryAnswerAt(es[..n], cfg, i);
      assert es[..n][..i] == es[..i];
      assert MemoryRun(es, cfg).1[i] == answers[i];
    }
  }

  lemma {:induction false} MemoryKeysAreAddresses(h: Hash, es: seq<Event>, cfg: Limits)
    ensures MemoryRun(es, cfg).0.Keys <= Addresses(es)
  {
    if es != [] {
      MemoryKeysAreAddresses(h, es[..|es| - 1], cfg);
      AddressesGrow(h, es, |es| - 1, 0);
    }
  }

  lemma MemoryRecordsAll(h: Hash, es: seq<Event>, cfg: Limits, i: nat)
    requires i < |es| && |Addresses(es)| < MEMORY_MAX_KEYS
    ensures MemoryRun(es, cfg).1[i] != Unrecorded
  {
    MemoryAnswerAt(es, cfg, i);
    MemoryKeysAreAddresses(h, es[..i], cfg);
    AddressesGrow(h, es, i, 0);
    SubsetSize(MemoryRun(es[..i], cfg).0.Keys, Addresses(es));
  }

  /** As long as no shard is asked about as many addresses as it has room for, the sharded
      limiter gives the very answers of the naive one, whenever either of them is swept. */
  lemma FloodAgreesWithMemory(h: Hash, es: seq<Event>, cfg: Limits)
    requires Ordered(es) && forall k | 0 <= k < |es| :: !es[k].Forgive?
    requires forall s: nat | s < SHARDS :: |ShardAddresses(h, es, s)| < MAX_KEYS_PER_SHARD
    ensures FloodRun(h, es, cfg).1 == MemoryRun(es, cfg).1
  {
    var a, b := FloodRun(h, es, cfg).1, MemoryRun(es, cfg).1;
    RunsAnswer(h, es, cfg);
    assert forall s: nat | s < SHARDS :: InShard(h, Addresses(es), s) == ShardAddresses(h, es, s);
    ShardsAddUp(h, Addresses(es), SHARDS, MAX_KEYS_PER_SHARD);
    assert LowAddresses(h, Addresses(es), SHARDS) == Addresses(es);
    forall i | 0 <= i < |es|
      ensures a[i] != Unrecorded && b[i] != Unrecorded
      ensures es[i].Check? ==> ExactAt(es, a, i, cfg) && ExactAt(es, b, i, cfg)
    {
      MemoryRecordsAll(h, es, cfg, i);
      if es[i].Check? {
        FewAddressesAreAllRecorded(h, es, cfg, i);
        FloodIsExact(h, es, cfg, i);
        MemoryIsExact(es, cfg, i);
      }
    }
    ExactAnswersAgree(es, a, b, cfg, |es|);
    assert a[..|es|] == a && b[..|es|] == b;
  }
}
