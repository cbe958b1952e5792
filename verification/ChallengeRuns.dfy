/** What every run of the challenge protocol guarantees, whatever is created, answered and
    cleaned up in between. */
module ChallengeRuns {
  import opened Outcomes
  import opened OldestFirst
  import opened ChallengeStore

  /** A solved challenge: when it was looked up, when it was recorded, and the start of the
      address's window it was counted in. */
  datatype Solve = Solve(id: string, ip: string, lookupAt: real, time: real, window: real)

  /** How far the verify request that is being served has come.  One is served at a time, but
      challenges are created and cleaned up between its steps. */
  datatype Stage = Idle | Looked(attempt: Attempt) | Checked(attempt: Attempt)

  /** The store, the time, the request being served, and the history: expiry of every challenge ever issued, the wrong
      answers each received, and the solves in order. */
  datatype World = World(
    store: Contents, now: real, stage: Stage, issued: map<string, real>, failures: map<string, nat>, solves: seq<Solve>)

  datatype Event =
    | Create(id: string, kind: string, now: real, evictAt: real)
    | Look(attempt: Attempt)
    | Check
    | Conclude
    | Cleanup(sweepAt: real, recordsAt: real)

  /** Challenge ids are non-empty and never repeat. */
  ghost predicate Creates(cfg: Config, w: World, id: string, kind: string, now: real, evictAt: real, v: World) {
    && id != "" && id !in w.issued && w.now <= now <= evictAt
    && Created(cfg, w.store, id, kind, now, evictAt, v.store)
    && v == World(v.store, evictAt, w.stage, w.issued[id := now + cfg.ttl], w.failures[id := 0], w.solves)
  }

  function Count(failures: map<string, nat>, id: string): nat {
    if id in failures then failures[id] else 0
  }

  predicate InOrder(now: real, a: Attempt) {
    now <= a.lookupAt <= a.checkAt <= a.recordAt <= a.startAt
  }

  ghost predicate Looks(w: World, a: Attempt, v: World) {
    && w.stage.Idle? && InOrder(w.now, a)
    && v == w.(now := a.lookupAt, stage := if GoesOn(w.store, a) then Looked(a) else Idle)
  }

  ghost predicate Checks(cfg: Config, w: World, v: World) {
    && w.stage.Looked? && w.now <= w.stage.attempt.checkAt
    && var a := w.stage.attempt;
       var (checked, limited) := LimitChecked(cfg, w.store.tracker, a.ip, a.checkAt);
       v == w.(store := w.store.(tracker := checked), now := a.checkAt, stage := if limited then Idle else Checked(a))
  }

  /** The solve, in the window it is counted in. */
  function SolveOf(cfg: Config, tracker: map<string, SolveRecord>, a: Attempt): Solve {
    Solve(a.id, a.ip, a.lookupAt, a.recordAt, SolveRecorded(cfg, tracker, a.ip, a.recordAt, a.startAt)[a.ip].windowStart)
  }

  ghost predicate Concludes(cfg: Config, w: World, v: World) {
    && w.stage.Checked? && w.now <= w.stage.attempt.recordAt <= w.stage.attempt.startAt
    && var a := w.stage.attempt;
       v == World(Concluded(cfg, w.store, a).0, a.startAt, Idle, w.issued,
                  if a.correct then w.failures else w.failures[a.id := Count(w.failures, a.id) + 1],
                  if a.correct then w.solves + [SolveOf(cfg, w.store.tracker, a)] else w.solves)
  }

  ghost predicate Cleans(cfg: Config, w: World, sweepAt: real, recordsAt: real, v: World) {
    && w.now <= sweepAt <= recordsAt
    && v == w.(store := Contents(Unexpired(w.store.challenges, sweepAt), RecordsLeft(cfg, w.store.tracker, recordsAt)),
               now := recordsAt)
  }

  ghost predicate Next(cfg: Config, w: World, e: Event, v: World) {
    match e
    case Create(id, kind, now, evictAt) => Creates(cfg, w, id, kind, now, evictAt, v)
    case Look(a) => Looks(w, a, v)
    case Check => Checks(cfg, w, v)
    case Conclude => Concludes(cfg, w, v)
    case Cleanup(sweepAt, recordsAt) => Cleans(cfg, w, sweepAt, recordsAt, v)
  }

  ghost predicate IsRun(cfg: Config, run: seq<Event>, worlds: seq<World>) {
    && |worlds| == |run| + 1
    && (exists start :: worlds[0] == World(EMPTY_CONTENTS, start, Idle, map[], map[], []))
    && forall i :: 0 <= i < |run| ==> Next(cfg, worlds[i], run[i], worlds[i + 1])
  }

  // ----- challenges: at most once, in time, within the retries -----

  /** The number of wrong answers a challenge survives; one is always allowed to be the last. */
  function Allowed(cfg: Config): int {
    if cfg.maxRetries < 1 then 1 else cfg.maxRetries
  }

  /** An open challenge agrees with its history. */
  ghost predicate OpenIsFaithful(cfg: Config, w: World, id: string) {
    id in w.store.challenges ==>
      && id != "" && id in w.issued && id in w.failures
      && w.store.challenges[id].expiresAt == w.issued[id]
      && w.store.challenges[id].attempts == w.failures[id] < Allowed(cfg)
  }

  ghost predicate SolvedIsClosed(cfg: Config, w: World, s: Solve) {
    && s.id !in w.store.challenges && s.id in w.issued && s.lookupAt <= w.issued[s.id]
    && s.id in w.failures && w.failures[s.id] < Allowed(cfg)
  }

  /** The challenge being answered was open, in time and unsolved, and nobody else answers it. */
  ghost predicate StageIsFaithful(cfg: Config, w: World) {
    !w.stage.Idle? ==>
      var a := w.stage.attempt;
      && a.id in w.issued && a.lookupAt <= w.issued[a.id] && a.id in w.failures && w.failures[a.id] < Allowed(cfg)
      && forall i :: 0 <= i < |w.solves| ==> w.solves[i].id != a.id
  }

  ghost predicate ChallengeInv(cfg: Config, w: World) {
    && StageIsFaithful(cfg, w)
    && w.failures.Keys == w.issued.Keys
    && (forall id :: OpenIsFaithful(cfg, w, id))
    && (forall id <- w.failures :: w.failures[id] <= Allowed(cfg))
    && (forall i :: 0 <= i < |w.solves| ==> SolvedIsClosed(cfg, w, w.solves[i]))
    && (forall i, j :: 0 <= i < j < |w.solves| ==> w.solves[i].id != w.solves[j].id)
    && |w.store.challenges| <= cfg.maxSize
  }

  lemma CreationMakesRoom(cfg: Config, s: Contents, id: string, kind: string, now: real, evictAt: real, t: Contents)
    requires ValidConfig(cfg) && Created(cfg, s, id, kind, now, evictAt, t)
    requires "" !in s.challenges && |s.challenges| <= cfg.maxSize
    ensures |t.challenges| <= cfg.maxSize
    ensures id in t.challenges && t.challenges[id] == Challenge(kind, now + cfg.ttl, 0)
    ensures forall k <- t.challenges :: k != id ==> k in s.challenges && t.challenges[k] == s.challenges[k]
  {
    var kept :| Evicted(cfg.maxSize, s.challenges, evictAt, kept)
                && t.challenges == kept[id := Challenge(kind, now + cfg.ttl, 0)];
    EvictionIsOldestFirst(cfg.maxSize, s.challenges, evictAt, kept);
    OneMore(kept, id, Challenge(kind, now + cfg.ttl, 0));
  }

  lemma OneMore(m: map<string, Challenge>, id: string, c: Challenge)
    ensures |m[id := c]| <= |m| + 1
  {
    assert m[id := c].Keys == m.Keys + {id};
  }

  lemma CreateKeepsChallenges(cfg: Config, w: World, id: string, kind: string, now: real, evictAt: real, v: World)
    requires ValidConfig(cfg) && ChallengeInv(cfg, w) && Creates(cfg, w, id, kind, now, evictAt, v)
    ensures ChallengeInv(cfg, v)
  {
    assert OpenIsFaithful(cfg, w, "") && OpenIsFaithful(cfg, w, id);
    CreationMakesRoom(cfg, w.store, id, kind, now, evictAt, v.store);
    forall k
      ensures OpenIsFaithful(cfg, v, k)
    {
      assert OpenIsFaithful(cfg, w, k);
    }
    forall i | 0 <= i < |v.solves|
      ensures SolvedIsClosed(cfg, v, v.solves[i])
    {
      assert SolvedIsClosed(cfg, w, w.solves[i]);
    }
  }

  lemma ShrinkKeepsChallenges(cfg: Config, w: World, v: World)
    requires ChallengeInv(cfg, w) && v.issued == w.issued && v.failures == w.failures && v.solves == w.solves
    requires v.stage.Idle? || (!w.stage.Idle? && v.stage.attempt == w.stage.attempt)
    requires v.store.challenges.Keys <= w.store.challenges.Keys
    requires forall id <- v.store.challenges :: v.store.challenges[id] == w.store.challenges[id]
    ensures ChallengeInv(cfg, v)
  {
    SubmapIsNoLarger(v.store.challenges, w.store.challenges);
    forall k
      ensures OpenIsFaithful(cfg, v, k)
    {
      assert OpenIsFaithful(cfg, w, k);
    }
    forall i | 0 <= i < |v.solves|
      ensures SolvedIsClosed(cfg, v, v.solves[i])
    {
      assert SolvedIsClosed(cfg, w, w.solves[i]);
    }
  }

  lemma LookKeepsChallenges(cfg: Config, w: World, a: Attempt, v: World)
    requires ChallengeInv(cfg, w) && Looks(w, a, v)
    ensures ChallengeInv(cfg, v)
  {
    ShrinkKeepsChallenges(cfg, w, v.(stage := Idle));
    assert OpenIsFaithful(cfg, w, a.id);
    forall k
      ensures OpenIsFaithful(cfg, v, k)
    {
      assert OpenIsFaithful(cfg, w, k);
    }
    forall i | 0 <= i < |v.solves|
      ensures SolvedIsClosed(cfg, v, v.solves[i])
    {
      assert SolvedIsClosed(cfg, w, w.solves[i]);
    }
  }

  lemma FailureKeepsChallenges(cfg: Config, w: World, v: World)
    requires ChallengeInv(cfg, w) && Concludes(cfg, w, v) && !w.stage.attempt.correct
    ensures ChallengeInv(cfg, v)
  {
    var id := w.stage.attempt.id;
    assert OpenIsFaithful(cfg, w, id);
    SubmapIsNoLarger(v.store.challenges, w.store.challenges);
    forall k
      ensures OpenIsFaithful(cfg, v, k)
    {
      assert OpenIsFaithful(cfg, w, k);
    }
    forall i | 0 <= i < |v.solves|
      ensures SolvedIsClosed(cfg, v, v.solves[i])
    {
      assert SolvedIsClosed(cfg, w, w.solves[i]) && w.solves[i].id != id;
    }
  }

  lemma SolveKeepsChallenges(cfg: Config, w: World, v: World)
    requires ChallengeInv(cfg, w) && Concludes(cfg, w, v) && w.stage.attempt.correct
    ensures ChallengeInv(cfg, v)
  {
    ShrinkKeepsChallenges(cfg, w, v.(solves := w.solves));
    forall k
      ensures OpenIsFaithful(cfg, v, k)
    {
      assert OpenIsFaithful(cfg, v.(solves := w.solves), k);
    }
    forall i | 0 <= i < |v.solves|
      ensures SolvedIsClosed(cfg, v, v.solves[i]) && (i < |w.solves| ==> v.solves[i].id != w.stage.attempt.id)
    {
      if i < |w.solves| {
        assert SolvedIsClosed(cfg, v.(solves := w.solves), w.solves[i]) && SolvedIsClosed(cfg, w, w.solves[i]);
      }
    }
  }

  lemma StepKeepsChallenges(cfg: Config, w: World, e: Event, v: World)
    requires ValidConfig(cfg) && ChallengeInv(cfg, w) && Next(cfg, w, e, v)
    ensures ChallengeInv(cfg, v)
  {
    match e
    case Create(id, kind, now, evictAt) => CreateKeepsChallenges(cfg, w, id, kind, now, evictAt, v);
    case Look(a) => LookKeepsChallenges(cfg, w, a, v);
    case Check => ShrinkKeepsChallenges(cfg, w, v);
    case Conclude =>
      if w.stage.attempt.correct {
        SolveKeepsChallenges(cfg, w, v);
      } else {
        FailureKeepsChallenges(cfg, w, v);
      }
    case Cleanup(sweepAt, recordsAt) => ShrinkKeepsChallenges(cfg, w, v);
  }

  // ----- solves: windows per address -----

  /** The solves of `ip` counted in the window that began at `start`. */
  function InWindow(solves: seq<Solve>, ip: string, start: real): nat {
    if solves == [] then 0
    else var last := solves[|solves| - 1];
         InWindow(solves[..|solves| - 1], ip, start) + if last.ip == ip && last.window == start then 1 else 0
  }

  /** The solves of `ip` recorded between two times. */
  function InSpan(solves: seq<Solve>, ip: string, lo: real, hi: real): nat {
    if solves == [] then 0
    else var last := solves[|solves| - 1];
         InSpan(solves[..|solves| - 1], ip, lo, hi) + if last.ip == ip && lo <= last.time <= hi then 1 else 0
  }

  /** A solve and a later one of the same address: counted together, or more than a window apart. */
  predicate Apart(cfg: Config, e: Solve, f: Solve) {
    e.ip == f.ip && e.window != f.window ==>
      e.window + cfg.solveWindow < f.time && e.window + cfg.solveWindow < f.window
  }

  /** The window of a solve and the record that is open now. */
  predicate Closed(cfg: Config, e: Solve, tracker: map<string, SolveRecord>, now: real) {
    if e.ip in tracker
    then e.window == tracker[e.ip].windowStart || e.window + cfg.solveWindow < tracker[e.ip].windowStart
    else e.window + cfg.solveWindow < now
  }

  ghost predicate RecordIsFaithful(tracker: map<string, SolveRecord>, now: real, solves: seq<Solve>, ip: string) {
    ip in tracker ==> tracker[ip].windowStart <= now && tracker[ip].count == InWindow(solves, ip, tracker[ip].windowStart)
  }

  /** What the records say about the solves so far. */
  ghost predicate Tracks(cfg: Config, tracker: map<string, SolveRecord>, now: real, solves: seq<Solve>) {
    && (forall i :: 0 <= i < |solves| ==> Closed(cfg, solves[i], tracker, now))
    && (forall ip :: RecordIsFaithful(tracker, now, solves, ip))
  }

  ghost predicate WindowInv(cfg: Config, now: real, solves: seq<Solve>) {
    && (forall i :: 0 <= i < |solves| ==> solves[i].time <= now && solves[i].time <= solves[i].window + cfg.solveWindow)
    && (forall i, j :: 0 <= i < j < |solves| ==> solves[i].time <= solves[j].time)
    && (forall i, j :: 0 <= i < j < |solves| ==> Apart(cfg, solves[i], solves[j]))
    && (forall ip, start :: InWindow(solves, ip, start) <= cfg.solveMax)
  }

  /** Records may be dropped once their window is over, and time may pass. */
  lemma DroppedRecordsStillTrack(
    cfg: Config, tracker: map<string, SolveRecord>, now: real, solves: seq<Solve>, left: map<string, SolveRecord>, t: real)
    requires ValidConfig(cfg) && Tracks(cfg, tracker, now, solves) && now <= t
    requires left.Keys <= tracker.Keys && forall ip <- left :: left[ip] == tracker[ip]
    requires forall ip <- tracker :: ip in left || WindowOver(cfg, tracker[ip], t)
    ensures Tracks(cfg, left, t, solves)
  {
    forall i | 0 <= i < |solves|
      ensures Closed(cfg, solves[i], left, t)
    {
      assert Closed(cfg, solves[i], tracker, now);
    }
    forall ip
      ensures RecordIsFaithful(left, t, solves, ip)
    {
      assert RecordIsFaithful(tracker, now, solves, ip);
    }
  }

  lemma {:induction false} NoneInWindow(solves: seq<Solve>, ip: string, start: real)
    requires forall i :: 0 <= i < |solves| && solves[i].ip == ip ==> solves[i].window < start
    ensures InWindow(solves, ip, start) == 0
  {
    if solves != [] {
      NoneInWindow(solves[..|solves| - 1], ip, start);
    }
  }

  /** A solve by an address below its limit is counted in its open window or opens a new one. */
  lemma RecordKeepsWindows(
    cfg: Config, tracker: map<string, SolveRecord>, now: real, solves: seq<Solve>, recordAt: real, startAt: real, s: Solve)
    requires ValidConfig(cfg) && Tracks(cfg, tracker, now, solves) && WindowInv(cfg, now, solves)
    requires now <= recordAt <= startAt && s.time == recordAt
    requires s.ip in tracker && !WindowOver(cfg, tracker[s.ip], recordAt) ==> tracker[s.ip].count < cfg.solveMax
    requires s.window == SolveRecorded(cfg, tracker, s.ip, recordAt, startAt)[s.ip].windowStart
    ensures Tracks(cfg, SolveRecorded(cfg, tracker, s.ip, recordAt, startAt), startAt, solves + [s])
    ensures WindowInv(cfg, startAt, solves + [s])
  {
    var after := SolveRecorded(cfg, tracker, s.ip, recordAt, startAt);
    var all := solves + [s];
    assert all[..|solves|] == solves;
    assert RecordIsFaithful(tracker, now, solves, s.ip);
    forall i | 0 <= i < |solves|
      ensures Closed(cfg, solves[i], after, startAt) && Apart(cfg, solves[i], s)
      ensures (s.ip !in tracker || WindowOver(cfg, tracker[s.ip], recordAt)) && solves[i].ip == s.ip ==> solves[i].window < s.window
    {
      assert Closed(cfg, solves[i], tracker, now);
    }
    if s.ip !in tracker || WindowOver(cfg, tracker[s.ip], recordAt) {
      NoneInWindow(solves, s.ip, s.window);
    }
    forall ip
      ensures RecordIsFaithful(after, startAt, all, ip)
    {
      assert RecordIsFaithful(tracker, now, solves, ip);
    }
    forall ip, start
      ensures InWindow(all, ip, start) <= cfg.solveMax
    {
      assert InWindow(solves, ip, start) <= cfg.solveMax;
    }
  }

  /** An address that has passed the check stays below its limit until it is recorded. */
  ghost predicate BelowLimit(cfg: Config, w: World) {
    w.stage.Checked? && w.stage.attempt.ip in w.store.tracker ==> w.store.tracker[w.stage.attempt.ip].count < cfg.solveMax
  }

  ghost predicate SolveInv(cfg: Config, w: World) {
    BelowLimit(cfg, w) && Tracks(cfg, w.store.tracker, w.now, w.solves) && WindowInv(cfg, w.now, w.solves)
  }

  lemma StepKeepsWindows(cfg: Config, w: World, e: Event, v: World)
    requires ValidConfig(cfg) && Next(cfg, w, e, v) && SolveInv(cfg, w)
    ensures SolveInv(cfg, v)
  {
    if e.Conclude? && w.stage.attempt.correct {
      var a := w.stage.attempt;
      RecordKeepsWindows(cfg, w.store.tracker, w.now, w.solves, a.recordAt, a.startAt, SolveOf(cfg, w.store.tracker, a));
    } else {
      DroppedRecordsStillTrack(cfg, w.store.tracker, w.now, w.solves, v.store.tracker, v.now);
    }
  }

  // ----- every run -----

  ghost predicate Inv(cfg: Config, w: World) {
    ChallengeInv(cfg, w) && SolveInv(cfg, w)
  }

  lemma {:induction false} RunKeepsInv(cfg: Config, run: seq<Event>, worlds: seq<World>, n: nat)
    requires ValidConfig(cfg) && IsRun(cfg, run, worlds) && n <= |run|
    ensures Inv(cfg, worlds[n])
  {
    if n == 0 {
      assert forall ip, start :: InWindow([], ip, start) == 0;
    } else {
      RunKeepsInv(cfg, run, worlds, n - 1);
      assert Next(cfg, worlds[n - 1], run[n - 1], worlds[n - 1 + 1]);
      StepKeepsChallenges(cfg, worlds[n - 1], run[n - 1], worlds[n]);
      StepKeepsWindows(cfg, worlds[n - 1], run[n - 1], worlds[n]);
    }
  }

  /** Each challenge is solved at most once, not after it expired, and only with fewer wrong
      answers than it allows; no challenge ever takes more wrong answers than that; stored
      attempts stay below the limit and the store within its size. */
  lemma ChallengesAreSafe(cfg: Config, run: seq<Event>, worlds: seq<World>, n: nat)
    requires ValidConfig(cfg) && IsRun(cfg, run, worlds) && n <= |run|
    ensures var w := worlds[n];
            && (forall i, j :: 0 <= i < j < |w.solves| ==> w.solves[i].id != w.solves[j].id)
            && (forall s <- w.solves :: s.id in w.issued && s.lookupAt <= w.issued[s.id])
            && (forall s <- w.solves :: s.id in w.failures && w.failures[s.id] < Allowed(cfg))
            && (forall id <- w.failures :: w.failures[id] <= Allowed(cfg))
            && (forall id <- w.store.challenges :: 0 <= w.store.challenges[id].attempts < Allowed(cfg))
            && |w.store.challenges| <= cfg.maxSize
  {
    RunKeepsInv(cfg, run, worlds, n);
    var w := worlds[n];
    forall s | s in w.solves
      ensures SolvedIsClosed(cfg, w, s)
    {
      var i :| 0 <= i < |w.solves| && w.solves[i] == s;
    }
    forall id | id in w.store.challenges
      ensures 0 <= w.store.challenges[id].attempts < Allowed(cfg)
    {
      assert OpenIsFaithful(cfg, w, id);
    }
  }

  /** Solves within a span that all fall into two windows are no more than those windows hold. */
  lemma {:induction false} TwoWindows(solves: seq<Solve>, ip: string, lo: real, hi: real, p: real, q: real)
    requires forall i :: 0 <= i < |solves| && solves[i].ip == ip && lo <= solves[i].time <= hi ==>
                           solves[i].window == p || solves[i].window == q
    ensures InSpan(solves, ip, lo, hi) <= InWindow(solves, ip, p) + InWindow(solves, ip, q)
  {
    if solves != [] {
      TwoWindows(solves[..|solves| - 1], ip, lo, hi, p, q);
    }
  }

  predicate Inside(s: Solve, ip: string, lo: real, hi: real) {
    s.ip == ip && lo <= s.time <= hi
  }

  lemma ThreeWindowsDoNotFit(cfg: Config, now: real, solves: seq<Solve>, i: nat, j: nat, k: nat)
    requires ValidConfig(cfg) && WindowInv(cfg, now, solves) && i < j < k < |solves|
    requires solves[i].ip == solves[j].ip == solves[k].ip
    requires solves[i].window != solves[j].window && solves[j].window != solves[k].window
    ensures solves[k].time - solves[i].time > cfg.solveWindow
  {
    assert Apart(cfg, solves[i], solves[j]) && Apart(cfg, solves[j], solves[k]);
  }

  lemma FirstInside(solves: seq<Solve>, ip: string, lo: real, hi: real) returns (found: bool, i: nat)
    ensures found ==> i < |solves| && Inside(solves[i], ip, lo, hi) && forall k :: 0 <= k < i ==> !Inside(solves[k], ip, lo, hi)
    ensures !found ==> forall k :: 0 <= k < |solves| ==> !Inside(solves[k], ip, lo, hi)
  {
    found, i := false, 0;
    while i < |solves|
      invariant i <= |solves| && forall k :: 0 <= k < i ==> !Inside(solves[k], ip, lo, hi)
    {
      if Inside(solves[i], ip, lo, hi) {
        return true, i;
      }
      i := i + 1;
    }
  }

  lemma LastInside(solves: seq<Solve>, ip: string, lo: real, hi: real, first: nat) returns (i: nat)
    requires first < |solves| && Inside(solves[first], ip, lo, hi)
    ensures first <= i < |solves| && Inside(solves[i], ip, lo, hi)
    ensures forall k :: i < k < |solves| ==> !Inside(solves[k], ip, lo, hi)
  {
    i := |solves| - 1;
    while !Inside(solves[i], ip, lo, hi)
      invariant first <= i < |solves| && forall k :: i < k < |solves| ==> !Inside(solves[k], ip, lo, hi)
      decreases i
    {
      i := i - 1;
    }
  }

  /** Any span as long as the solve window holds at most twice the limit of solves per address. */
  lemma SolvesPerSpan(cfg: Config, run: seq<Event>, worlds: seq<World>, n: nat, ip: string, lo: real)
    requires ValidConfig(cfg) && IsRun(cfg, run, worlds) && n <= |run|
    ensures InSpan(worlds[n].solves, ip, lo, lo + cfg.solveWindow) <= 2 * cfg.solveMax
  {
    RunKeepsInv(cfg, run, worlds, n);
    var now, solves, hi := worlds[n].now, worlds[n].solves, lo + cfg.solveWindow;
    var found, first := FirstInside(solves, ip, lo, hi);
    if !found {
      TwoWindows(solves, ip, lo, hi, 0.0, 0.0);
    } else {
      var last := LastInside(solves, ip, lo, hi, first);
      var p, q := solves[first].window, solves[last].window;
      forall i | 0 <= i < |solves| && solves[i].ip == ip && lo <= solves[i].time <= hi
        ensures solves[i].window == p || solves[i].window == q
      {
        assert Inside(solves[i], ip, lo, hi);
        if solves[i].window != p && solves[i].window != q {
          ThreeWindowsDoNotFit(cfg, now, solves, first, i, last);
        }
      }
      TwoWindows(solves, ip, lo, hi, p, q);
    }
  }

  // ----- a challenge goes only for a reason -----

  /** At step `k` the challenge had to make room: it was there, the store was full, and it is gone. */
  ghost predicate EvictedAt(cfg: Config, worlds: seq<World>, k: nat, id: string)
    requires k + 1 < |worlds|
  {
    && id in worlds[k].store.challenges && id !in worlds[k + 1].store.challenges
    && |worlds[k].store.challenges| >= cfg.maxSize
  }

  ghost predicate Accounted(cfg: Config, worlds: seq<World>, n: nat, id: string)
    requires n < |worlds|
  {
    var w := worlds[n];
    id in w.issued && id !in w.store.challenges ==>
      || (exists i :: 0 <= i < |w.solves| && w.solves[i].id == id)
      || w.now > w.issued[id]
      || (id in w.failures && w.failures[id] >= Allowed(cfg))
      || (exists k :: 0 <= k < n && EvictedAt(cfg, worlds, k, id))
  }

  lemma CreateAccounts(cfg: Config, w: World, e: Event, v: World, id: string)
    requires e.Create? && Next(cfg, w, e, v) && id in w.store.challenges && id !in v.store.challenges
    ensures |w.store.challenges| >= cfg.maxSize
  {
    RoomIsLeft(cfg, w.store, e.id, e.kind, e.now, e.evictAt, v.store);
  }

  lemma RoomIsLeft(cfg: Config, s: Contents, id: string, kind: string, now: real, evictAt: real, t: Contents)
    requires Created(cfg, s, id, kind, now, evictAt, t)
    ensures |s.challenges| < cfg.maxSize ==> t.challenges == s.challenges[id := Challenge(kind, now + cfg.ttl, 0)]
  {
  }

  /** A step that takes a challenge out of the store gives one of the reasons. */
  lemma GoneForAReason(cfg: Config, w: World, e: Event, v: World, id: string)
    requires ValidConfig(cfg) && ChallengeInv(cfg, w) && Next(cfg, w, e, v)
    requires id in w.store.challenges && id !in v.store.challenges && !e.Create?
    ensures id in v.issued && id in v.failures
    ensures || (|v.solves| > |w.solves| && v.solves[|w.solves|].id == id)
            || v.now > v.issued[id]
            || v.failures[id] >= Allowed(cfg)
  {
    assert OpenIsFaithful(cfg, w, id);
  }

  /** And nothing that accounts for a missing challenge is taken back. */
  lemma HistoryStays(cfg: Config, w: World, e: Event, v: World, id: string)
    requires ChallengeInv(cfg, w) && Next(cfg, w, e, v) && id in w.issued
    ensures id in v.issued && v.issued[id] == w.issued[id] && w.now <= v.now && id in w.failures && id in v.failures
    ensures w.failures[id] <= v.failures[id] && w.solves <= v.solves
    ensures id !in w.store.challenges ==> id !in v.store.challenges
  {
    if e.Create? {
      var kept :| Evicted(cfg.maxSize, w.store.challenges, e.evictAt, kept)
                  && v.store.challenges == kept[e.id := Challenge(e.kind, e.now + cfg.ttl, 0)];
      EvictionIsOldestFirst(cfg.maxSize, w.store.challenges, e.evictAt, kept);
    }
  }

  lemma OnlyCreationIssues(cfg: Config, w: World, e: Event, v: World, id: string)
    requires Next(cfg, w, e, v) && id in v.issued && id !in w.issued
    ensures id in v.store.challenges
  {
  }

  /** In any run, an issued challenge is missing only if it was solved, has expired, took all the
      wrong answers it allows, or had to make room in a full store. */
  lemma {:induction false} MissingForAReason(cfg: Config, run: seq<Event>, worlds: seq<World>, n: nat, id: string)
    requires ValidConfig(cfg) && IsRun(cfg, run, worlds) && n <= |run|
    ensures Accounted(cfg, worlds, n, id)
  {
    if n > 0 && id in worlds[n].issued && id !in worlds[n].store.challenges {
      var w, e, v := worlds[n - 1], run[n - 1], worlds[n];
      assert Next(cfg, worlds[n - 1], run[n - 1], worlds[n - 1 + 1]);
      RunKeepsInv(cfg, run, worlds, n - 1);
      MissingForAReason(cfg, run, worlds, n - 1, id);
      if id !in w.issued {
        OnlyCreationIssues(cfg, w, e, v, id);
      } else {
        HistoryStays(cfg, w, e, v, id);
        if id in w.store.challenges {
          MissingNow(cfg, run, worlds, n, id);
        } else if i :| 0 <= i < |w.solves| && w.solves[i].id == id {
          assert v.solves[i].id == id;
        } else if k :| 0 <= k < n - 1 && EvictedAt(cfg, worlds, k, id) {
          assert 0 <= k < n;
        }
      }
    }
  }

  lemma MissingNow(cfg: Config, run: seq<Event>, worlds: seq<World>, n: nat, id: string)
    requires ValidConfig(cfg) && IsRun(cfg, run, worlds) && 0 < n <= |run| && Inv(cfg, worlds[n - 1])
    requires id in worlds[n - 1].store.challenges && id !in worlds[n].store.challenges
    ensures Accounted(cfg, worlds, n, id)
  {
    var w, e, v := worlds[n - 1], run[n - 1], worlds[n];
    assert Next(cfg, worlds[n - 1], run[n - 1], worlds[n - 1 + 1]);
    if e.Create? {
      CreateAccounts(cfg, w, e, v, id);
      assert EvictedAt(cfg, worlds, n - 1, id);
    } else {
      GoneForAReason(cfg, w, e, v, id);
      if |v.solves| > |w.solves| && v.solves[|w.solves|].id == id {
        assert 0 <= |w.solves| < |v.solves|;
      }
    }
  }

  /** A wrong answer that leaves the challenge further tries keeps it open, with just its count
      raised, and reports how many are left; the last one closes it. */
  lemma WrongAnswerCounts(cfg: Config, run: seq<Event>, worlds: seq<World>, n: nat, a: Attempt)
    requires ValidConfig(cfg) && IsRun(cfg, run, worlds) && n < |run| && run[n].Conclude?
    requires worlds[n].stage == Checked(a) && !a.correct && a.id in worlds[n].store.challenges
    ensures var w, v := worlds[n], worlds[n + 1];
            var c := w.store.challenges[a.id];
            && a.id in w.failures && v.failures == w.failures[a.id := w.failures[a.id] + 1]
            && (w.failures[a.id] + 1 < Allowed(cfg) ==>
                  && v.store.challenges == w.store.challenges[a.id := c.(attempts := c.attempts + 1)]
                  && Concluded(cfg, w.store, a).1 == Invalid(cfg.maxRetries - w.failures[a.id] - 1))
            && (w.failures[a.id] + 1 == Allowed(cfg) ==>
                  v.store.challenges == w.store.challenges - {a.id} && Concluded(cfg, w.store, a).1 == Invalid(0))
  {
    RunKeepsInv(cfg, run, worlds, n);
    assert Next(cfg, worlds[n], run[n], worlds[n + 1]);
    assert OpenIsFaithful(cfg, worlds[n], a.id);
  }

  /** The solves of an address in its open window, if it has one at that time. */
  ghost function OpenSolves(cfg: Config, w: World, ip: string, now: real): nat {
    if ip in w.store.tracker && now - w.store.tracker[ip].windowStart <= cfg.solveWindow
    then InWindow(w.solves, ip, w.store.tracker[ip].windowStart) else 0
  }

  /** In any state of a run, with nothing in between: a request is answered "expired" exactly when
      its challenge is missing or past its time, refused exactly when its address has used up its
      open window, and solves the challenge exactly when neither is so and the answer is right. */
  lemma VerifyOutcomeIff(cfg: Config, run: seq<Event>, worlds: seq<World>, n: nat, a: Attempt)
    requires ValidConfig(cfg) && IsRun(cfg, run, worlds) && n <= |run|
    ensures var w := worlds[n];
            var outcome := Verified(cfg, w.store, a).1;
            var open := a.id in w.store.challenges && a.id in w.issued && a.lookupAt <= w.issued[a.id];
            var free := OpenSolves(cfg, w, a.ip, a.checkAt) < cfg.solveMax;
            && (a.id in w.store.challenges ==> a.id in w.issued)
            && (outcome == Expired <==> !open)
            && (outcome == UnknownKind <==> open && !a.kindKnown)
            && (outcome == RateLimited <==> open && a.kindKnown && !free)
            && (outcome == Solved <==> open && a.kindKnown && free && a.correct)
            && (outcome.Invalid? <==> open && a.kindKnown && free && !a.correct)
  {
    RunKeepsInv(cfg, run, worlds, n);
    assert OpenIsFaithful(cfg, worlds[n], a.id);
    assert RecordIsFaithful(worlds[n].store.tracker, worlds[n].now, worlds[n].solves, a.ip);
  }
}
