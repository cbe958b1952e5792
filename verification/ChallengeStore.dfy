/** The store of open challenges, the verify endpoint on top of it, and the per-address
    limit on solves.  Times are arguments; verify requests are served one at a time. */
module ChallengeStore {
  import opened Outcomes
  import opened FiniteSets
  import opened OldestFirst

  datatype Challenge = Challenge(kind: string, expiresAt: real, attempts: int)

  datatype SolveRecord = SolveRecord(count: int, windowStart: real)

  datatype Config = Config(maxRetries: int, maxSize: nat, ttl: real, solveMax: int, solveWindow: real)

  /** Sizes and windows are positive; the number of retries is whatever was configured. */
  predicate ValidConfig(cfg: Config) {
    cfg.maxSize >= 1 && cfg.solveMax >= 1 && cfg.solveWindow >= 0.0
  }

  datatype Contents = Contents(challenges: map<string, Challenge>, tracker: map<string, SolveRecord>)

  const EMPTY_CONTENTS := Contents(map[], map[])

  // ----- challenges -----

  function Unexpired(cs: map<string, Challenge>, now: real): map<string, Challenge> {
    map id | id in cs && now <= cs[id].expiresAt :: cs[id]
  }

  function EvictCount(maxSize: nat): (n: nat)
    ensures n >= 1
  {
    if maxSize / 10 < 1 then 1 else maxSize / 10
  }

  function ExpiresAt(c: Challenge): real {
    c.expiresAt
  }

  /** What a full store keeps: expired entries go first, and only when that is not enough the
      earliest to expire go as well. */
  ghost predicate Evicted(maxSize: nat, before: map<string, Challenge>, now: real, kept: map<string, Challenge>) {
    if |before| < maxSize then kept == before
    else if |Unexpired(before, now)| < maxSize then kept == Unexpired(before, now)
    else && OldestRemoved(Unexpired(before, now), kept, ExpiresAt)
         && ("" !in before ==>
               var live, n := |Unexpired(before, now)|, EvictCount(maxSize);
               |kept| == if live < n then 0 else live - n)
  }

  /** Every eviction removes only entries that expire no later than any survivor, and makes room. */
  lemma EvictionIsOldestFirst(maxSize: nat, before: map<string, Challenge>, now: real, kept: map<string, Challenge>)
    requires Evicted(maxSize, before, now, kept)
    ensures OldestRemoved(before, kept, ExpiresAt)
    ensures "" !in before && |before| <= maxSize && maxSize >= 1 ==> |kept| < maxSize
  {
    var live := Unexpired(before, now);
    assert live.Keys <= before.Keys;
    if |before| >= maxSize {
      SubmapIsNoLarger(live, before);
      if |live| >= maxSize {
        OldestRemovedTwice(before, live, kept, ExpiresAt);
      }
    }
  }

  lemma SubmapIsNoLarger(a: map<string, Challenge>, b: map<string, Challenge>)
    requires a.Keys <= b.Keys
    ensures |a| <= |b|
  {
    SubsetSize(a.Keys, b.Keys);
    assert |a| == |a.Keys| && |b| == |b.Keys|;
  }

  /** A new challenge under `id`, made at `now`; a full store makes room at `evictAt`. */
  ghost predicate Created(cfg: Config, s: Contents, id: string, kind: string, now: real, evictAt: real, t: Contents) {
    && t.tracker == s.tracker
    && exists kept :: Evicted(cfg.maxSize, s.challenges, evictAt, kept)
                      && t.challenges == kept[id := Challenge(kind, now + cfg.ttl, 0)]
  }

  function Lookup(s: Contents, id: string, now: real): Option<Challenge> {
    if id in s.challenges && now <= s.challenges[id].expiresAt then Some(s.challenges[id]) else None
  }

  // ----- solves -----

  predicate WindowOver(cfg: Config, rec: SolveRecord, now: real) {
    now - rec.windowStart > cfg.solveWindow
  }

  function LimitChecked(cfg: Config, tracker: map<string, SolveRecord>, ip: string, now: real): (map<string, SolveRecord>, bool) {
    if ip !in tracker then (tracker, false)
    else if WindowOver(cfg, tracker[ip], now) then (tracker - {ip}, false)
    else (tracker, tracker[ip].count >= cfg.solveMax)
  }

  /** The clock is read again, as `start`, when a new window begins. */
  function SolveRecorded(cfg: Config, tracker: map<string, SolveRecord>, ip: string, now: real, start: real): map<string, SolveRecord> {
    if ip !in tracker || WindowOver(cfg, tracker[ip], now)
    then tracker[ip := SolveRecord(1, start)]
    else tracker[ip := tracker[ip].(count := tracker[ip].count + 1)]
  }

  function RecordsLeft(cfg: Config, tracker: map<string, SolveRecord>, now: real): map<string, SolveRecord> {
    map ip | ip in tracker && !WindowOver(cfg, tracker[ip], now) :: tracker[ip]
  }

  // ----- verification -----

  /** A verify request with what the rest of the system says about it (is the challenge's type
      registered, is the answer right) and the times at which the store is consulted. */
  datatype Attempt = Attempt(
    id: string, ip: string, kindKnown: bool, correct: bool,
    lookupAt: real, checkAt: real, recordAt: real, startAt: real)

  datatype Outcome = Expired | UnknownKind | RateLimited | Invalid(remaining: int) | Solved

  /** The request is about an open challenge of a known type. */
  predicate GoesOn(s: Contents, a: Attempt) {
    Lookup(s, a.id, a.lookupAt).Some? && a.kindKnown
  }

  function AtLeastZero(n: int): int {
    if n < 0 then 0 else n
  }

  /** What the endpoint does after the checks.  The challenge may have gone since it was looked
      up; a wrong answer to it then counts nowhere. */
  function Concluded(cfg: Config, s: Contents, a: Attempt): (Contents, Outcome) {
    if a.correct then
      (Contents(s.challenges - {a.id}, SolveRecorded(cfg, s.tracker, a.ip, a.recordAt, a.startAt)), Solved)
    else if a.id !in s.challenges then (s, Invalid(AtLeastZero(cfg.maxRetries + 1)))
    else
      var attempts := s.challenges[a.id].attempts + 1;
      (s.(challenges := if attempts >= cfg.maxRetries then s.challenges - {a.id}
                        else s.challenges[a.id := s.challenges[a.id].(attempts := attempts)]),
       Invalid(AtLeastZero(cfg.maxRetries - attempts)))
  }

  /** The endpoint when nothing comes between its steps. */
  function Verified(cfg: Config, s: Contents, a: Attempt): (Contents, Outcome) {
    if Lookup(s, a.id, a.lookupAt).None? then (s, Expired)
    else if !a.kindKnown then (s, UnknownKind)
    else
      var (checked, limited) := LimitChecked(cfg, s.tracker, a.ip, a.checkAt);
      if limited then (s.(tracker := checked), RateLimited) else Concluded(cfg, s.(tracker := checked), a)
  }

  class Store {
    const cfg: Config
    var challenges: map<string, Challenge>
    var solveTracker: map<string, SolveRecord>

    function View(): Contents
      reads this
    {
      Contents(challenges, solveTracker)
    }

    constructor (cfg: Config)
      ensures this.cfg == cfg && View() == EMPTY_CONTENTS
    {
      this.cfg := cfg;
      challenges, solveTracker := map[], map[];
    }

    method RemoveExpired(now: real)
      modifies this`challenges
      ensures challenges == Unexpired(old(challenges), now)
    {
      var rest := challenges.Keys;
      while rest != {}
        invariant rest <= challenges.Keys <= old(challenges).Keys
        invariant forall id <- challenges :: challenges[id] == old(challenges)[id]
        invariant forall id <- old(challenges) ::
                    id in challenges <==> id in rest || now <= old(challenges)[id].expiresAt
        decreases rest
      {
        var id :| id in rest;
        if now > challenges[id].expiresAt {
          challenges := challenges - {id};
        }
        rest := rest - {id};
      }
    }

    method EvictLocked(now: real)
      requires |challenges| >= cfg.maxSize
      modifies this`challenges
      ensures Evicted(cfg.maxSize, old(challenges), now, challenges)
    {
      RemoveExpired(now);
      if |challenges| >= cfg.maxSize {
        challenges := EvictOldest(challenges, EvictCount(cfg.maxSize), ExpiresAt);
      }
    }

    /** `kind` is absent when the challenge type fails to generate one. */
    method Create(kind: Option<string>, id: string, now: real, evictAt: real) returns (made: Option<Challenge>)
      modifies this`challenges
      ensures kind.None? ==> made == None && View() == old(View())
      ensures kind.Some? ==> Created(cfg, old(View()), id, kind.value, now, evictAt, View())
                             && made == Some(challenges[id])
    {
      if kind.None? {
        return None;
      }
      var data := Challenge(kind.value, now + cfg.ttl, 0);
      if |challenges| >= cfg.maxSize {
        EvictLocked(evictAt);
      }
      ghost var kept := challenges;
      assert Evicted(cfg.maxSize, old(challenges), evictAt, kept);
      challenges := challenges[id := data];
      made := Some(data);
    }

    method Get(id: string, now: real) returns (c: Option<Challenge>)
      ensures c == Lookup(View(), id, now)
    {
      if id !in challenges || now > challenges[id].expiresAt {
        return None;
      }
      return Some(challenges[id]);
    }

    method IncrementAttempts(id: string) returns (attempts: int)
      modifies this`challenges
      ensures id !in old(challenges) ==> attempts == -1 && challenges == old(challenges)
      ensures id in old(challenges) ==>
                && attempts == old(challenges)[id].attempts + 1
                && challenges == old(challenges)[id := old(challenges)[id].(attempts := attempts)]
    {
      if id !in challenges {
        return -1;
      }
      attempts := challenges[id].attempts + 1;
      challenges := challenges[id := challenges[id].(attempts := attempts)];
    }

    method Delete(id: string)
      modifies this`challenges
      ensures challenges == old(challenges) - {id}
    {
      challenges := challenges - {id};
    }

    method IsSolveRateLimited(ip: string, now: real) returns (limited: bool)
      modifies this`solveTracker
      ensures (solveTracker, limited) == LimitChecked(cfg, old(solveTracker), ip, now)
    {
      if ip !in solveTracker {
        return false;
      }
      var rec := solveTracker[ip];
      if now - rec.windowStart > cfg.solveWindow {
        solveTracker := solveTracker - {ip};
        return false;
      }
      return rec.count >= cfg.solveMax;
    }

    method RecordSolve(ip: string, now: real, start: real)
      modifies this`solveTracker
      ensures solveTracker == SolveRecorded(cfg, old(solveTracker), ip, now, start)
    {
      if ip !in solveTracker || now - solveTracker[ip].windowStart > cfg.solveWindow {
        solveTracker := solveTracker[ip := SolveRecord(1, start)];
        return;
      }
      var rec := solveTracker[ip];
      solveTracker := solveTracker[ip := rec.(count := rec.count + 1)];
    }

    method Cleanup(now: real, later: real)
      modifies this
      ensures View() == Contents(Unexpired(old(challenges), now), RecordsLeft(cfg, old(solveTracker), later))
    {
      RemoveExpired(now);
      var rest := solveTracker.Keys;
      while rest != {}
        invariant challenges == Unexpired(old(challenges), now)
        invariant rest <= solveTracker.Keys <= old(solveTracker).Keys
        invariant forall ip <- solveTracker :: solveTracker[ip] == old(solveTracker)[ip]
        invariant forall ip <- old(solveTracker) ::
                    ip in solveTracker <==> ip in rest || !WindowOver(cfg, old(solveTracker)[ip], later)
        decreases rest
      {
        var ip :| ip in rest;
        if later - solveTracker[ip].windowStart > cfg.solveWindow {
          solveTracker := solveTracker - {ip};
        }
        rest := rest - {ip};
      }
    }

    /** The verify endpoint. */
    method Verify(a: Attempt) returns (outcome: Outcome)
      modifies this
      ensures (View(), outcome) == Verified(cfg, old(View()), a)
    {
      var data := Get(a.id, a.lookupAt);
      if data.None? {
        return Expired;
      }
      if !a.kindKnown {
        return UnknownKind;
      }
      var limited := IsSolveRateLimited(a.ip, a.checkAt);
      if limited {
        return RateLimited;
      }
      outcome := Conclude(a);
    }

    /** Its last part, after the checks. */
    method Conclude(a: Attempt) returns (outcome: Outcome)
      modifies this
      ensures (View(), outcome) == Concluded(cfg, old(View()), a)
    {
      if !a.correct {
        var attempts := IncrementAttempts(a.id);
        var remaining := cfg.maxRetries - attempts;
        if remaining < 0 {
          remaining := 0;
        }
        if attempts >= cfg.maxRetries {
          Delete(a.id);
          assert challenges == old(challenges) - {a.id};
          assert a.id !in old(challenges) ==> old(challenges) - {a.id} == old(challenges);
        }
        return Invalid(remaining);
      }
      Delete(a.id);
      RecordSolve(a.ip, a.recordAt, a.startAt);
      return Solved;
    }
  }
}
