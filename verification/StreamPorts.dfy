/** Ports of stream applications: automatic choice, conflict checks, and the store of
    applications over any run of creations, updates and deletions. */
module StreamPorts {
  import opened Outcomes
  import opened FiniteSets

  datatype Upstream = Upstream(host: string, port: int, scheme: string, weight: int, enabled: bool)

  /** `settingsValid` stands for the checks that concern neither upstreams nor ports.  A port of
      0 asks for an automatic choice. */
  datatype App = App(
    id: string, domain: string, upstreams: seq<Upstream>, lbMethod: string,
    listenPort: int, backendPort: int, settingsValid: bool)

  /** The configured port ranges; the environment can only set positive bounds. */
  datatype Ranges = Ranges(listenMin: int, listenMax: int, backendMin: int, backendMax: int)

  const DEFAULT_RANGES := Ranges(10000, 19999, 40000, 49999)

  predicate ValidRanges(g: Ranges) {
    g.listenMin > 0 && g.listenMax > 0 && g.backendMin > 0 && g.backendMax > 0
  }

  /** Each stream application holds two ports. */
  datatype Side = Listen | Backend

  function PortOf(a: App, side: Side): int {
    if side.Listen? then a.listenPort else a.backendPort
  }

  function Min(g: Ranges, side: Side): int {
    if side.Listen? then g.listenMin else g.backendMin
  }

  function Max(g: Ranges, side: Side): int {
    if side.Listen? then g.listenMax else g.backendMax
  }

  predicate IsStream(a: App) {
    a.upstreams != [] && (a.upstreams[0].scheme == "tcp" || a.upstreams[0].scheme == "udp")
  }

  // ----- validation -----

  predicate ValidUpstream(u: Upstream) {
    && u.host != "" && 0 < u.port <= 65535 && 1 <= u.weight <= 100
    && (u.scheme == "http" || u.scheme == "https" || u.scheme == "tcp" || u.scheme == "udp")
  }

  predicate PortAllowed(g: Ranges, a: App, side: Side) {
    PortOf(a, side) == 0 || Min(g, side) <= PortOf(a, side) <= Max(g, side)
  }

  predicate IsValid(g: Ranges, a: App) {
    && a.domain != "" && a.settingsValid
    && (forall u <- a.upstreams :: ValidUpstream(u))
    && (exists u <- a.upstreams :: u.enabled)
    && (IsStream(a) ==> PortAllowed(g, a, Listen) && PortAllowed(g, a, Backend))
    && (|a.upstreams| > 1 ==> a.lbMethod == "round-robin" || a.lbMethod == "least-conn" || a.lbMethod == "ip-hash")
  }

  method Validate(g: Ranges, a: App) returns (ok: bool)
    ensures ok <==> IsValid(g, a)
  {
    if a.domain == "" || |a.upstreams| == 0 {
      return false;
    }
    for i := 0 to |a.upstreams|
      invariant forall k :: 0 <= k < i ==> ValidUpstream(a.upstreams[k])
    {
      if !ValidUpstream(a.upstreams[i]) {
        return false;
      }
    }
    if IsStream(a) && !(PortAllowed(g, a, Listen) && PortAllowed(g, a, Backend)) {
      return false;
    }
    var activeCount := 0;
    for i := 0 to |a.upstreams|
      invariant activeCount >= 0
      invariant activeCount == 0 <==> forall k :: 0 <= k < i ==> !a.upstreams[k].enabled
    {
      if a.upstreams[i].enabled {
        activeCount := activeCount + 1;
      }
    }
    if activeCount == 0 {
      return false;
    }
    if |a.upstreams| > 1 && a.lbMethod != "round-robin" && a.lbMethod != "least-conn" && a.lbMethod != "ip-hash" {
      return false;
    }
    return a.settingsValid;
  }

  // ----- resolving a port -----

  datatype Error = InvalidApp | NoPortLeft(side: Side) | PortTaken(side: Side, holder: string) | Immortal | Refused

  predicate Holds(apps: map<string, App>, k: string, side: Side, port: int) {
    k in apps && IsStream(apps[k]) && PortOf(apps[k], side) == port
  }

  /** Some stream application other than `id` has the port. */
  ghost predicate Held(apps: map<string, App>, id: string, side: Side, port: int) {
    exists k :: k != id && Holds(apps, k, side, port)
  }

  /** The port an application ends up with: its own wish if nobody else holds it, else, when it
      has none, the lowest free port; failing only if there is none to give. */
  ghost predicate Resolved(apps: map<string, App>, g: Ranges, a: App, side: Side, r: Result<int, Error>) {
    match r
    case Ok(p) =>
      && !Held(apps, a.id, side, p)
      && if PortOf(a, side) != 0 then p == PortOf(a, side)
         else Min(g, side) <= p <= Max(g, side) && forall q :: Min(g, side) <= q < p ==> Held(apps, a.id, side, q)
    case Err(NoPortLeft(s)) =>
      s == side && PortOf(a, side) == 0 && forall q :: Min(g, side) <= q <= Max(g, side) ==> Held(apps, a.id, side, q)
    case Err(PortTaken(s, holder)) =>
      s == side && PortOf(a, side) != 0 && holder != a.id && Holds(apps, holder, side, PortOf(a, side))
    case Err(_) => false
  }

  // ----- what every run keeps -----

  /** Stream applications have in-range ports, and no two share one. */
  ghost predicate Separate(apps: map<string, App>, g: Ranges, side: Side) {
    && (forall k <- apps :: IsStream(apps[k]) ==> Min(g, side) <= PortOf(apps[k], side) <= Max(g, side))
    && (forall k <- apps, l <- apps :: k != l && IsStream(apps[k]) && IsStream(apps[l]) ==>
          PortOf(apps[k], side) != PortOf(apps[l], side))
  }

  ghost predicate Inv(apps: map<string, App>, g: Ranges) {
    && (forall k <- apps :: apps[k].id == k)
    && Separate(apps, g, Listen) && Separate(apps, g, Backend)
  }

  /** `accepted` is the database's answer to the write itself; `demo` is the protected domain
      of a demonstration installation. */
  datatype Op = Create(app: App, accepted: bool) | Update(app: App, accepted: bool) | Delete(id: string)

  /** The application as it is stored: an ordinary one as it came, a stream with its ports. */
  ghost predicate Placed(apps: map<string, App>, g: Ranges, a: App, b: App) {
    if IsStream(a)
    then Resolved(apps, g, a, Listen, Ok(b.listenPort)) && Resolved(apps, g, a, Backend, Ok(b.backendPort))
         && b == a.(listenPort := b.listenPort, backendPort := b.backendPort)
    else b == a
  }

  ghost predicate Unplaceable(apps: map<string, App>, g: Ranges, a: App, e: Error) {
    && IsStream(a)
    && (Resolved(apps, g, a, Listen, Err(e))
        || ((exists p :: Resolved(apps, g, a, Listen, Ok(p))) && Resolved(apps, g, a, Backend, Err(e))))
  }

  predicate IsImmortal(apps: map<string, App>, demo: Option<string>, id: string) {
    demo.Some? && id in apps && apps[id].domain == demo.value
  }

  ghost predicate Written(apps: map<string, App>, g: Ranges, a: App, accepted: bool, after: map<string, App>, r: Option<Error>) {
    match r
    case None => IsValid(g, a) && accepted && exists b :: Placed(apps, g, a, b) && after == apps[a.id := b]
    case Some(e) =>
      && after == apps
      && if !IsValid(g, a) then e == InvalidApp
         else if e == Refused then !accepted
         else Unplaceable(apps, g, a, e)
  }

  ghost predicate Performed(
    apps: map<string, App>, g: Ranges, demo: Option<string>, op: Op, after: map<string, App>, r: Option<Error>)
  {
    match op
    case Create(a, accepted) => Written(apps, g, a, accepted && a.id !in apps, after, r)
    case Update(a, accepted) =>
      if IsImmortal(apps, demo, a.id) then r == Some(Immortal) && after == apps
      else Written(apps, g, a, accepted && a.id in apps, after, r)
    case Delete(id) =>
      if IsImmortal(apps, demo, id) then r == Some(Immortal) && after == apps
      else if id !in apps then r == Some(Refused) && after == apps
      else r == None && after == apps - {id}
  }

  lemma PlacedIsSeparate(apps: map<string, App>, g: Ranges, a: App, b: App, side: Side)
    requires Separate(apps, g, side) && IsValid(g, a) && Placed(apps, g, a, b)
    ensures Separate(apps[a.id := b], g, side)
  {
    var after := apps[a.id := b];
    if IsStream(b) {
      assert Resolved(apps, g, a, side, Ok(PortOf(b, side)));
      forall k | k in after && k != a.id && IsStream(after[k])
        ensures PortOf(after[k], side) != PortOf(b, side)
      {
        assert PortOf(after[k], side) == PortOf(b, side) ==> Holds(apps, k, side, PortOf(b, side));
      }
    }
  }

  lemma OpKeepsInv(apps: map<string, App>, g: Ranges, demo: Option<string>, op: Op, after: map<string, App>, r: Option<Error>)
    requires Inv(apps, g) && Performed(apps, g, demo, op, after, r)
    ensures Inv(after, g)
  {
    if r.None? && !op.Delete? {
      var b :| Placed(apps, g, op.app, b) && after == apps[op.app.id := b];
      PlacedIsSeparate(apps, g, op.app, b, Listen);
      PlacedIsSeparate(apps, g, op.app, b, Backend);
    }
  }

  ghost predicate Steps(apps: map<string, App>, g: Ranges, demo: Option<string>, op: Op, after: map<string, App>) {
    exists r :: Performed(apps, g, demo, op, after, r)
  }

  ghost predicate IsRun(g: Ranges, demo: Option<string>, run: seq<Op>, stores: seq<map<string, App>>) {
    && |stores| == |run| + 1 && stores[0] == map[]
    && forall i :: 0 <= i < |run| ==> Steps(stores[i], g, demo, run[i], stores[i + 1])
  }

  /** Over any run, stream applications keep in-range listen and backend ports of their own. */
  lemma {:induction false} RunsKeepPortsSeparate(
    g: Ranges, demo: Option<string>, run: seq<Op>, stores: seq<map<string, App>>, n: nat)
    requires IsRun(g, demo, run, stores) && n <= |run|
    ensures Inv(stores[n], g)
  {
    if n > 0 {
      RunsKeepPortsSeparate(g, demo, run, stores, n - 1);
      assert Steps(stores[n - 1], g, demo, run[n - 1], stores[n - 1 + 1]);
      var r :| Performed(stores[n - 1], g, demo, run[n - 1], stores[n], r);
      OpKeepsInv(stores[n - 1], g, demo, run[n - 1], stores[n], r);
    }
  }

  /** An automatic choice fails only if other stream applications hold every port in range, so
      not as long as there are fewer of them than ports. */
  lemma EnoughPorts(apps: map<string, App>, g: Ranges, a: App, side: Side, r: Result<int, Error>)
    requires Resolved(apps, g, a, side, r) && PortOf(a, side) == 0
    requires |apps.Keys - {a.id}| < Max(g, side) - Min(g, side) + 1
    ensures r.Ok?
  {
    if r.Err? {
      var holders := HoldersOf(apps, g, a.id, side, Max(g, side));
    }
  }

  lemma {:induction false} HoldersOf(apps: map<string, App>, g: Ranges, id: string, side: Side, top: int) returns (holders: set<string>)
    requires Min(g, side) - 1 <= top
    requires forall q :: Min(g, side) <= q <= top ==> Held(apps, id, side, q)
    ensures holders <= apps.Keys - {id} && |holders| == top - Min(g, side) + 1
    ensures |holders| <= |apps.Keys - {id}|
    ensures forall k <- holders :: PortOf(apps[k], side) <= top
    decreases top - Min(g, side)
  {
    if top < Min(g, side) {
      holders := {};
    } else {
      holders := HoldersOf(apps, g, id, side, top - 1);
      assert Held(apps, id, side, top);
      var k :| k != id && Holds(apps, k, side, top);
      holders := holders + {k};
    }
    SubsetSize(holders, apps.Keys - {id});
  }

  // ----- when a write succeeds, and what it does -----

  /** There is a port to give: the one asked for, or any in range. */
  ghost predicate PortIsFree(apps: map<string, App>, g: Ranges, a: App, side: Side) {
    if PortOf(a, side) != 0 then !Held(apps, a.id, side, PortOf(a, side))
    else exists q :: Min(g, side) <= q <= Max(g, side) && !Held(apps, a.id, side, q)
  }

  ghost predicate PortsAreFree(apps: map<string, App>, g: Ranges, a: App) {
    IsStream(a) ==> PortIsFree(apps, g, a, Listen) && PortIsFree(apps, g, a, Backend)
  }

  lemma ResolvedIff(apps: map<string, App>, g: Ranges, a: App, side: Side, r: Result<int, Error>)
    requires Resolved(apps, g, a, side, r)
    ensures r.Ok? <==> PortIsFree(apps, g, a, side)
  {
    if r.Ok? {
      assert !Held(apps, a.id, side, r.value);
    }
  }

  /** An application is written exactly when it is valid, its ports are free and the database
      takes it; a failure changes nothing. */
  lemma WrittenIff(apps: map<string, App>, g: Ranges, a: App, accepted: bool, after: map<string, App>, r: Option<Error>)
    requires Written(apps, g, a, accepted, after, r)
    ensures r.None? <==> IsValid(g, a) && PortsAreFree(apps, g, a) && accepted
    ensures r.Some? ==> after == apps
  {
    match r
    case None =>
      var b :| Placed(apps, g, a, b) && after == apps[a.id := b];
      if IsStream(a) {
        ResolvedIff(apps, g, a, Listen, Ok(b.listenPort));
        ResolvedIff(apps, g, a, Backend, Ok(b.backendPort));
      }
    case Some(e) =>
      if Unplaceable(apps, g, a, e) {
        if Resolved(apps, g, a, Listen, Err(e)) {
          ResolvedIff(apps, g, a, Listen, Err(e));
        } else {
          ResolvedIff(apps, g, a, Backend, Err(e));
        }
      }
  }

  /** An application that is no stream is stored as it came.  A stream is stored with the ports
      it asked for, and in place of each it left open the lowest in range that no other stream
      holds; no other application changes. */
  lemma WrittenIsStored(apps: map<string, App>, g: Ranges, a: App, accepted: bool, after: map<string, App>, side: Side)
    requires Written(apps, g, a, accepted, after, None)
    ensures after.Keys == apps.Keys + {a.id} && after - {a.id} == apps - {a.id}
    ensures !IsStream(a) ==> after[a.id] == a
    ensures IsStream(a) ==>
              && after[a.id].(listenPort := a.listenPort, backendPort := a.backendPort) == a
              && var p := PortOf(after[a.id], side);
                 && !Held(after, a.id, side, p)
                 && (PortOf(a, side) != 0 ==> p == PortOf(a, side))
                 && (PortOf(a, side) == 0 ==> Min(g, side) <= p <= Max(g, side)
                                              && forall q :: Min(g, side) <= q < p ==> Held(after, a.id, side, q))
  {
    var b :| Placed(apps, g, a, b) && after == apps[a.id := b];
    assert after - {a.id} == apps - {a.id};
    if IsStream(a) {
      assert Resolved(apps, g, a, side, Ok(PortOf(b, side)));
      forall q
        ensures Held(after, a.id, side, q) <==> Held(apps, a.id, side, q)
      {
        assert forall k | k != a.id :: Holds(after, k, side, q) <==> Holds(apps, k, side, q);
      }
    }
  }

  /** Storing an application again as it is stored changes nothing and is refused only by the
      database or the protection: its own ports are not in its way. */
  lemma RewritingChangesNothing(apps: map<string, App>, g: Ranges, a: App, accepted: bool, after: map<string, App>, r: Option<Error>)
    requires ValidRanges(g) && Inv(apps, g) && a.id in apps && apps[a.id] == a && IsValid(g, a)
    requires Written(apps, g, a, accepted, after, r)
    ensures after == apps && (r.None? <==> accepted)
  {
    WrittenIff(apps, g, a, accepted, after, r);
    if r.None? {
      WrittenIsStored(apps, g, a, accepted, after, Listen);
      WrittenIsStored(apps, g, a, accepted, after, Backend);
      assert after == (after - {a.id})[a.id := after[a.id]];
      assert apps == (apps - {a.id})[a.id := apps[a.id]];
    }
  }

  // ----- the service -----

  class AppService {
    const ranges: Ranges
    const demo: Option<string>
    var apps: map<string, App>

    ghost predicate Valid()
      reads this
    {
      ValidRanges(ranges) && Inv(apps, ranges)
    }

    constructor (ranges: Ranges, demo: Option<string>)
      requires ValidRanges(ranges)
      ensures Valid() && this.ranges == ranges && this.demo == demo && apps == map[]
    {
      this.ranges, this.demo := ranges, demo;
      apps := map[];
    }

    method FindAvailable(a: App, side: Side) returns (r: Result<int, Error>)
      requires Valid() && PortOf(a, side) == 0
      ensures Resolved(apps, ranges, a, side, r)
    {
      var used: set<int> := {};
      var rest := apps.Keys;
      while rest != {}
        invariant rest <= apps.Keys
        invariant forall q :: q in used ==> Held(apps, a.id, side, q)
        invariant forall k <- apps :: k !in rest && k != a.id && IsStream(apps[k]) ==> PortOf(apps[k], side) in used
        decreases rest
      {
        var k :| k in rest;
        rest := rest - {k};
        if k != a.id && IsStream(apps[k]) && PortOf(apps[k], side) > 0 {
          assert Holds(apps, k, side, PortOf(apps[k], side));
          used := used + {PortOf(apps[k], side)};
        }
      }
      var port := Min(ranges, side);
      while port <= Max(ranges, side)
        invariant forall q :: Min(ranges, side) <= q < port ==> Held(apps, a.id, side, q)
        decreases Max(ranges, side) - port
      {
        if port !in used {
          return Ok(port);
        }
        port := port + 1;
      }
      return Err(NoPortLeft(side));
    }

    method CheckConflict(a: App, side: Side) returns (r: Result<int, Error>)
      requires PortOf(a, side) != 0
      ensures Resolved(apps, ranges, a, side, r)
    {
      var rest := apps.Keys;
      while rest != {}
        invariant rest <= apps.Keys
        invariant forall k <- apps :: k !in rest && k != a.id ==> !Holds(apps, k, side, PortOf(a, side))
        decreases rest
      {
        var k :| k in rest;
        rest := rest - {k};
        if k != a.id && Holds(apps, k, side, PortOf(a, side)) {
          return Err(PortTaken(side, k));
        }
      }
      return Ok(PortOf(a, side));
    }

    method ResolvePort(a: App, side: Side) returns (r: Result<int, Error>)
      requires Valid()
      ensures Resolved(apps, ranges, a, side, r)
    {
      if PortOf(a, side) == 0 {
        r := FindAvailable(a, side);
      } else {
        r := CheckConflict(a, side);
      }
    }

    /** Both ports of a stream application, in this order. */
    method Place(a: App) returns (r: Result<App, Error>)
      requires Valid()
      ensures r.Ok? ==> Placed(apps, ranges, a, r.value)
      ensures r.Err? ==> Unplaceable(apps, ranges, a, r.error) && r.error != Refused
    {
      if !IsStream(a) {
        return Ok(a);
      }
      var listen := ResolvePort(a, Listen);
      if listen.Err? {
        return Err(listen.error);
      }
      var b := a.(listenPort := listen.value);
      var backend := ResolvePort(b, Backend);
      if backend.Err? {
        return Err(backend.error);
      }
      return Ok(b.(backendPort := backend.value));
    }

    method CreateApp(a: App, accepted: bool) returns (r: Option<Error>)
      requires Valid()
      modifies this`apps
      ensures Valid() && Performed(old(apps), ranges, demo, Create(a, accepted), apps, r)
    {
      var ok := Validate(ranges, a);
      if !ok {
        return Some(InvalidApp);
      }
      var placed := Place(a);
      if placed.Err? {
        return Some(placed.error);
      }
      if !accepted || a.id in apps {
        return Some(Refused);
      }
      apps := apps[a.id := placed.value];
      r := None;
      OpKeepsInv(old(apps), ranges, demo, Create(a, accepted), apps, r);
    }

    method UpdateApp(a: App, accepted: bool) returns (r: Option<Error>)
      requires Valid()
      modifies this`apps
      ensures Valid() && Performed(old(apps), ranges, demo, Update(a, accepted), apps, r)
    {
      if IsImmortal(apps, demo, a.id) {
        return Some(Immortal);
      }
      var ok := Validate(ranges, a);
      if !ok {
        return Some(InvalidApp);
      }
      var placed := Place(a);
      if placed.Err? {
        return Some(placed.error);
      }
      if !accepted || a.id !in apps {
        return Some(Refused);
      }
      apps := apps[a.id := placed.value];
      r := None;
      OpKeepsInv(old(apps), ranges, demo, Update(a, accepted), apps, r);
    }

    method DeleteApp(id: string) returns (r: Option<Error>)
      requires Valid()
      modifies this`apps
      ensures Valid() && Performed(old(apps), ranges, demo, Delete(id), apps, r)
    {
      if IsImmortal(apps, demo, id) {
        return Some(Immortal);
      }
      if id !in apps {
        return Some(Refused);
      }
      apps := apps - {id};
      return None;
    }
  }
}
