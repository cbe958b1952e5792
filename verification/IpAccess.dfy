/** Per-application IP access rules: the overlap check, the rule store it guards, and the
    snapshot that client addresses are matched against. */
module IpAccess {
  import opened Outcomes

  // ----- addresses and blocks, as bits -----

  type Bits = seq<bool>

  function Zeros(n: nat): (z: Bits)
    ensures |z| == n && forall i :: 0 <= i < n ==> !z[i]
  {
    seq(n, _ => false)
  }

  /** IPv6 addresses that are IPv4 addresses in disguise (::ffff:0:0/96). */
  predicate Mapped(a: Bits) {
    |a| == 128 && (forall i :: 0 <= i < 80 ==> !a[i]) && (forall i :: 80 <= i < 96 ==> a[i])
  }

  /** Addresses are compared after an IPv4 address has been put into its short form. */
  predicate IsAddress(a: Bits) {
    |a| == 32 || (|a| == 128 && !Mapped(a))
  }

  /** A CIDR block of either family: its family's width and the bits its members share. */
  datatype Block = Block(width: nat, prefix: Bits)

  predicate IsBlock(b: Block) {
    |b.prefix| <= b.width && IsAddress(Base(b))
  }

  /** The network address. */
  function Base(b: Block): Bits
    requires |b.prefix| <= b.width
  {
    b.prefix + Zeros(b.width - |b.prefix|)
  }

  predicate Contains(b: Block, a: Bits) {
    |a| == b.width && |b.prefix| <= |a| && a[..|b.prefix|] == b.prefix
  }

  /** The test the service makes. */
  predicate Overlap(a: Block, b: Block)
    requires IsBlock(a) && IsBlock(b)
  {
    Contains(a, Base(b)) || Contains(b, Base(a))
  }

  ghost predicate Common(a: Block, b: Block, x: Bits) {
    IsAddress(x) && Contains(a, x) && Contains(b, x)
  }

  lemma BaseIsInside(b: Block)
    requires IsBlock(b)
    ensures IsAddress(Base(b)) && Contains(b, Base(b))
  {
  }

  lemma CommonMeansOverlap(a: Block, b: Block, x: Bits)
    requires IsBlock(a) && IsBlock(b) && Common(a, b, x) && |a.prefix| <= |b.prefix|
    ensures Contains(a, Base(b))
  {
    assert Base(b)[..|b.prefix|] == b.prefix == x[..|b.prefix|];
    assert Base(b)[..|a.prefix|] == b.prefix[..|a.prefix|] == x[..|a.prefix|];
  }

  /** Testing the two network addresses finds exactly the pairs that share an address. */
  lemma OverlapIffCommon(a: Block, b: Block)
    requires IsBlock(a) && IsBlock(b)
    ensures Overlap(a, b) <==> exists x :: Common(a, b, x)
  {
    BaseIsInside(a);
    BaseIsInside(b);
    if Overlap(a, b) {
      assert Common(a, b, Base(a)) || Common(a, b, Base(b));
    }
    if x :| Common(a, b, x) {
      if |a.prefix| <= |b.prefix| {
        CommonMeansOverlap(a, b, x);
      } else {
        CommonMeansOverlap(b, a, x);
      }
    }
  }

  // ----- rules -----

  /** The address library: what a text means as a CIDR block and as an address, and whether it
      writes an IPv4 address the IPv6 way, as ::ffff:10.0.0.5. */
  datatype Net = Net(cidr: string -> Option<Block>, address: string -> Option<Bits>, mapped: string -> bool)

  /** The suffix that turns a single address into a block; it depends on whether the address
      has an IPv4 form. */
  function HostSuffix(a: Bits): string {
    if |a| == 32 then "/32" else "/128"
  }

  /** ::/32, the first 32 bits of every IPv4 address in IPv6 notation. */
  const LOWEST_BLOCK := Block(128, Zeros(32))

  /** What an address with its suffix means as a block.  The suffix is chosen by the short form
      of the address but applies to the notation it is written in. */
  function HostBlock(net: Net, s: string, a: Bits): Block {
    if net.mapped(s) then LOWEST_BLOCK else Block(|a|, a)
  }

  /** What is relied on: parsed values are well-formed, only IPv4 addresses have two notations,
      and an address with its suffix parses to its host block. */
  ghost predicate Sane(net: Net) {
    && (forall s :: net.cidr(s).Some? ==> IsBlock(net.cidr(s).value))
    && (forall s :: net.address(s).Some? ==> Parsed(net, s, net.address(s).value))
  }

  ghost predicate Parsed(net: Net, s: string, a: Bits) {
    IsAddress(a) && (net.mapped(s) ==> |a| == 32) && net.cidr(s + HostSuffix(a)) == Some(HostBlock(net, s, a))
  }

  datatype Rule = Rule(appId: string, range: string, description: string, action: string, enabled: bool)

  datatype CreateRequest = CreateRequest(appId: string, range: string, description: string, action: string, enabled: bool)

  /** Empty texts and an absent flag leave a field alone. */
  datatype UpdateRequest = UpdateRequest(range: string, description: string, action: string, enabled: Option<bool>)

  datatype Error = AppIdRequired | InvalidRange | InvalidAction | Overlaps(id: nat) | NotFound | InvalidAddress

  datatype Store = Store(rules: map<nat, Rule>, nextId: nat)

  const EMPTY_STORE := Store(map[], 1)

  predicate ValidAction(action: string) {
    action == "allow" || action == "block" || action == "challenge"
  }

  predicate ValidRange(net: Net, range: string) {
    net.cidr(range).Some? || net.address(range).Some?
  }

  /** The block a requested range is checked as. */
  function CheckedBlock(net: Net, range: string): Option<Block> {
    match net.cidr(range)
    case Some(b) => Some(b)
    case None =>
      match net.address(range)
      case None => None
      case Some(a) => net.cidr(range + HostSuffix(a))
  }

  /** Rule `id` stands in the way of the block.  Rules for single addresses never do. */
  ghost predicate Blocks(net: Net, rules: map<nat, Rule>, app: string, b: Block, excluded: nat, id: nat)
    requires Sane(net) && IsBlock(b)
  {
    && id in rules && id != excluded && rules[id].appId == app
    && net.cidr(rules[id].range).Some? && Overlap(b, net.cidr(rules[id].range).value)
  }

  /** The first rule that stands in the way, in order of id. */
  ghost predicate Verdict(net: Net, rules: map<nat, Rule>, app: string, range: string, excluded: nat, r: Option<Error>)
    requires Sane(net)
  {
    match CheckedBlock(net, range)
    case None => r == Some(InvalidRange)
    case Some(b) =>
      match r
      case None => forall id :: !Blocks(net, rules, app, b, excluded, id)
      case Some(Overlaps(id)) => Blocks(net, rules, app, b, excluded, id)
                                 && forall k :: Blocks(net, rules, app, b, excluded, k) ==> id <= k
      case Some(_) => false
  }

  function Updated(rule: Rule, req: UpdateRequest): Rule {
    Rule(rule.appId,
         if req.range != "" then req.range else rule.range,
         if req.description != "" then req.description else rule.description,
         if req.action != "" then req.action else rule.action,
         if req.enabled.Some? then req.enabled.value else rule.enabled)
  }

  // ----- the operations, as relations between stores -----

  ghost predicate Created(net: Net, s: Store, req: CreateRequest, t: Store, r: Result<nat, Error>)
    requires Sane(net)
  {
    if req.appId == "" then r == Err(AppIdRequired) && t == s
    else if !ValidRange(net, req.range) then r == Err(InvalidRange) && t == s
    else if !ValidAction(req.action) then r == Err(InvalidAction) && t == s
    else match r
      case Err(e) => Verdict(net, s.rules, req.appId, req.range, 0, Some(e)) && t == s
      case Ok(id) =>
        && Verdict(net, s.rules, req.appId, req.range, 0, None) && id == s.nextId
        && t == Store(s.rules[id := Rule(req.appId, req.range, req.description, req.action, req.enabled)], s.nextId + 1)
  }

  ghost predicate Changed(net: Net, s: Store, app: string, id: nat, req: UpdateRequest, t: Store, r: Result<nat, Error>)
    requires Sane(net)
  {
    if id !in s.rules || s.rules[id].appId != app then r == Err(NotFound) && t == s
    else if req.range != "" && !ValidRange(net, req.range) then r == Err(InvalidRange) && t == s
    else match r
      case Ok(k) =>
        && (req.range != "" ==> Verdict(net, s.rules, app, req.range, id, None))
        && (req.action == "" || ValidAction(req.action))
        && k == id && t == s.(rules := s.rules[id := Updated(s.rules[id], req)])
      case Err(e) =>
        && t == s
        && if req.range == "" || Verdict(net, s.rules, app, req.range, id, None)
           then e == InvalidAction && req.action != "" && !ValidAction(req.action)
           else Verdict(net, s.rules, app, req.range, id, Some(e))
  }

  ghost predicate Deleted(s: Store, app: string, id: nat, t: Store, r: Result<nat, Error>) {
    if id !in s.rules || s.rules[id].appId != app then r == Err(NotFound) && t == s
    else r == Ok(id) && t == s.(rules := s.rules - {id})
  }

  // ----- what every run keeps -----

  /** Ids are given out in order, starting above 0. */
  predicate IdsBounded(s: Store) {
    s.nextId > 0 && forall id <- s.rules :: 0 < id < s.nextId
  }

  predicate AreDisjoint(a: Block, b: Block)
    requires IsBlock(a) && IsBlock(b)
  {
    !Overlap(a, b)
  }

  /** The CIDR rules of one application have no address in common, enabled or not. */
  ghost predicate Disjoint(net: Net, rules: map<nat, Rule>)
    requires Sane(net)
  {
    forall i, j ::
      i in rules && j in rules && i != j && rules[i].appId == rules[j].appId
      && net.cidr(rules[i].range).Some? && net.cidr(rules[j].range).Some?
      ==> AreDisjoint(net.cidr(rules[i].range).value, net.cidr(rules[j].range).value)
  }

  ghost predicate Inv(net: Net, s: Store)
    requires Sane(net)
  {
    IdsBounded(s) && Disjoint(net, s.rules)
  }

  datatype Op =
    | Create(req: CreateRequest)
    | Update(app: string, id: nat, change: UpdateRequest)
    | Delete(app: string, id: nat)

  ghost predicate Performed(net: Net, s: Store, op: Op, t: Store, r: Result<nat, Error>)
    requires Sane(net)
  {
    match op
    case Create(req) => Created(net, s, req, t, r)
    case Update(app, id, req) => Changed(net, s, app, id, req, t, r)
    case Delete(app, id) => Deleted(s, app, id, t, r)
  }

  /** Putting a range that passed the check under `id` keeps the application disjoint. */
  lemma AdmittedIsDisjoint(net: Net, rules: map<nat, Rule>, id: nat, rule: Rule, excluded: nat)
    requires Sane(net) && Disjoint(net, rules)
    requires Verdict(net, rules, rule.appId, rule.range, excluded, None)
    requires excluded in rules ==> excluded == id
    requires id in rules ==> excluded == id
    ensures Disjoint(net, rules[id := rule])
  {
    var after := rules[id := rule];
    if net.cidr(rule.range).Some? {
      var b := net.cidr(rule.range).value;
      forall j | j in after && j != id && after[j].appId == rule.appId && net.cidr(after[j].range).Some?
        ensures AreDisjoint(b, net.cidr(after[j].range).value) && AreDisjoint(net.cidr(after[j].range).value, b)
      {
        assert !Blocks(net, rules, rule.appId, b, excluded, j);
      }
    }
  }

  lemma OpKeepsInv(net: Net, s: Store, op: Op, t: Store, r: Result<nat, Error>)
    requires Sane(net) && Inv(net, s) && Performed(net, s, op, t, r)
    ensures Inv(net, t)
  {
    if r.Ok? {
      match op
      case Create(req) =>
        AdmittedIsDisjoint(net, s.rules, r.value, t.rules[r.value], 0);
      case Update(app, id, req) =>
        if req.range != "" {
          AdmittedIsDisjoint(net, s.rules, id, t.rules[id], id);
        }
      case Delete(app, id) =>
    }
  }

  /** `run[i]` takes `stores[i]` to `stores[i + 1]`, whether it succeeds or fails. */
  ghost predicate IsRun(net: Net, run: seq<Op>, stores: seq<Store>)
    requires Sane(net)
  {
    && |stores| == |run| + 1 && stores[0] == EMPTY_STORE
    && forall i :: 0 <= i < |run| ==> Steps(net, stores[i], run[i], stores[i + 1])
  }

  ghost predicate Steps(net: Net, s: Store, op: Op, t: Store)
    requires Sane(net)
  {
    exists r :: Performed(net, s, op, t, r)
  }

  lemma {:induction false} RunKeepsInv(net: Net, run: seq<Op>, stores: seq<Store>, n: nat)
    requires Sane(net) && IsRun(net, run, stores) && n <= |run|
    ensures Inv(net, stores[n])
  {
    if n > 0 {
      RunKeepsInv(net, run, stores, n - 1);
      assert Steps(net, stores[n - 1], run[n - 1], stores[n - 1 + 1]);
      var r :| Performed(net, stores[n - 1], run[n - 1], stores[n], r);
      OpKeepsInv(net, stores[n - 1], run[n - 1], stores[n], r);
    }
  }

  // ----- matching -----

  /** A rule ready for matching. */
  datatype Compiled = Network(id: nat, block: Block) | Single(id: nat, address: Bits)

  predicate Matches(c: Compiled, a: Bits) {
    match c
    case Network(_, b) => Contains(b, a)
    case Single(_, x) => x == a
  }

  function Compile(net: Net, id: nat, range: string): Option<Compiled> {
    match net.cidr(range)
    case Some(b) => Some(Network(id, b))
    case None =>
      match net.address(range)
      case Some(a) => Some(Single(id, a))
      case None => None
  }

  /** Rule `id` of the application takes part in matching. */
  predicate Active(net: Net, rules: map<nat, Rule>, app: string, id: nat) {
    && id in rules && rules[id].enabled && rules[id].appId == app
    && Compile(net, id, rules[id].range).Some?
  }

  /** The application's active rules with ids below `n`, in order of id. */
  function ActiveRules(net: Net, rules: map<nat, Rule>, app: string, n: nat): seq<Compiled> {
    if n == 0 then []
    else ActiveRules(net, rules, app, n - 1)
         + if Active(net, rules, app, n - 1) then [Compile(net, n - 1, rules[n - 1].range).value] else []
  }

  function FirstMatch(cs: seq<Compiled>, a: Bits): Option<nat> {
    if cs == [] then None else if Matches(cs[0], a) then Some(cs[0].id) else FirstMatch(cs[1..], a)
  }

  function ListOf(snapshot: map<string, seq<Compiled>>, app: string): seq<Compiled> {
    if app in snapshot then snapshot[app] else []
  }

  /** The application's own rules come first, then those every application inherits. */
  function Lookup(snapshot: map<string, seq<Compiled>>, app: string, a: Bits): Option<nat> {
    var own := FirstMatch(ListOf(snapshot, app), a);
    if own.Some? then own else if app == "default" then None else FirstMatch(ListOf(snapshot, "default"), a)
  }

  /** The active rule of the application that matches and has the lowest id. */
  ghost predicate LowestMatch(net: Net, rules: map<nat, Rule>, app: string, a: Bits, n: nat, r: Option<nat>) {
    match r
    case None => forall id: nat :: id < n && Active(net, rules, app, id) ==> !Hits(net, rules, id, a)
    case Some(k) =>
      && k < n && Active(net, rules, app, k) && Hits(net, rules, k, a)
      && forall id: nat :: id < k && Active(net, rules, app, id) ==> !Hits(net, rules, id, a)
  }

  predicate Hits(net: Net, rules: map<nat, Rule>, id: nat, a: Bits) {
    && id in rules && Compile(net, id, rules[id].range).Some?
    && Matches(Compile(net, id, rules[id].range).value, a)
  }

  lemma {:induction false} FirstMatchOfSum(xs: seq<Compiled>, ys: seq<Compiled>, a: Bits)
    ensures FirstMatch(xs + ys, a) == if FirstMatch(xs, a).Some? then FirstMatch(xs, a) else FirstMatch(ys, a)
  {
    if xs == [] {
      assert xs + ys == ys;
    } else {
      assert (xs + ys)[1..] == xs[1..] + ys;
      FirstMatchOfSum(xs[1..], ys, a);
    }
  }

  lemma {:induction false} FirstMatchIsLowest(net: Net, rules: map<nat, Rule>, app: string, a: Bits, n: nat)
    ensures LowestMatch(net, rules, app, a, n, FirstMatch(ActiveRules(net, rules, app, n), a))
  {
    if n > 0 {
      FirstMatchIsLowest(net, rules, app, a, n - 1);
      var last := if Active(net, rules, app, n - 1) then [Compile(net, n - 1, rules[n - 1].range).value] else [];
      FirstMatchOfSum(ActiveRules(net, rules, app, n - 1), last, a);
    }
  }

  // ----- consequences of disjointness -----

  /** At most one CIDR rule of an application matches a client address. */
  lemma AtMostOneNetworkMatches(net: Net, rules: map<nat, Rule>, i: nat, j: nat, a: Bits)
    requires Sane(net) && Disjoint(net, rules) && IsAddress(a)
    requires i in rules && j in rules && rules[i].appId == rules[j].appId
    requires net.cidr(rules[i].range).Some? && net.cidr(rules[j].range).Some?
    requires Hits(net, rules, i, a) && Hits(net, rules, j, a)
    ensures i == j
  {
    if i != j {
      var x, y := net.cidr(rules[i].range).value, net.cidr(rules[j].range).value;
      assert Common(x, y, a) && AreDisjoint(x, y);
      OverlapIffCommon(x, y);
    }
  }

  /** Over any run, no address lies in two CIDR rules of one application. */
  lemma RunsStayDisjoint(net: Net, run: seq<Op>, stores: seq<Store>, n: nat, i: nat, j: nat, x: Block, y: Block)
    requires Sane(net) && IsRun(net, run, stores) && n <= |run|
    requires var rules := stores[n].rules;
             i in rules && j in rules && i != j && rules[i].appId == rules[j].appId
             && net.cidr(rules[i].range) == Some(x) && net.cidr(rules[j].range) == Some(y)
    ensures forall a :: IsAddress(a) ==> !(Contains(x, a) && Contains(y, a))
  {
    RunKeepsInv(net, run, stores, n);
    assert AreDisjoint(x, y);
    OverlapIffCommon(x, y);
    assert forall a :: !Common(x, y, a);
  }

  /** Rules for single addresses stand outside the guarantee.  In any store they have no say in
      whether a range is admitted, so a CIDR rule may be put around one. */
  lemma SingleAddressNeverBlocks(net: Net, rules: map<nat, Rule>, id: nat, app: string, range: string, excluded: nat, r: Option<Error>)
    requires Sane(net) && id in rules && net.cidr(rules[id].range).None?
    ensures Verdict(net, rules, app, range, excluded, r) <==> Verdict(net, rules - {id}, app, range, excluded, r)
  {
    if CheckedBlock(net, range).Some? {
      var b := CheckedBlock(net, range).value;
      assert forall k :: Blocks(net, rules, app, b, excluded, k) <==> Blocks(net, rules - {id}, app, b, excluded, k);
    }
  }

  /** The other way round, a single address inside a CIDR rule of the application is refused
      exactly when it is not written the IPv6 way, or else when some rule happens to overlap
      ::/32, which is what is checked instead. */
  lemma SingleInsideIsRefusedIff(
    net: Net, rules: map<nat, Rule>, id: nat, single: string, a: Bits, excluded: nat, r: Option<Error>)
    requires Sane(net) && id in rules && id != excluded && net.cidr(rules[id].range).Some?
    requires net.cidr(single).None? && net.address(single) == Some(a) && Contains(net.cidr(rules[id].range).value, a)
    requires Verdict(net, rules, rules[id].appId, single, excluded, r)
    ensures r.Some? <==>
            || !net.mapped(single)
            || exists k :: Blocks(net, rules, rules[id].appId, HostBlock(net, single, a), excluded, k)
    ensures r.Some? ==> r.value.Overlaps? && Blocks(net, rules, rules[id].appId, HostBlock(net, single, a), excluded, r.value.id)
  {
    var host := HostBlock(net, single, a);
    assert Parsed(net, single, a) && CheckedBlock(net, single) == Some(host);
    if !net.mapped(single) {
      assert Base(host) == a;
      assert Blocks(net, rules, rules[id].appId, host, excluded, id);
    }
  }

  lemma LowestBlockIsBlock()
    ensures IsBlock(LOWEST_BLOCK)
  {
    assert !Base(LOWEST_BLOCK)[80];
  }

  /** So an address in IPv6 notation is admitted inside any IPv4 rule: with nothing but
      10.0.0.0/8 in store, the single address ::ffff:10.0.0.5 is not refused. */
  lemma MappedSingleIsAdmitted(net: Net, id: nat, app: string, a: Bits, ten: Bits, r: Option<Error>)
    requires Sane(net) && |ten| == 8 && ten <= a && net.cidr("10.0.0.0/8") == Some(Block(32, ten))
    requires net.cidr("::ffff:10.0.0.5").None? && net.address("::ffff:10.0.0.5") == Some(a) && net.mapped("::ffff:10.0.0.5")
    requires Verdict(net, map[id := Rule(app, "10.0.0.0/8", "", "block", true)], app, "::ffff:10.0.0.5", 0, r)
    ensures r == None && Contains(Block(32, ten), a)
  {
    var rules := map[id := Rule(app, "10.0.0.0/8", "", "block", true)];
    LowestBlockIsBlock();
    assert Parsed(net, "::ffff:10.0.0.5", a) && CheckedBlock(net, "::ffff:10.0.0.5") == Some(LOWEST_BLOCK);
    assert forall k :: !Blocks(net, rules, app, LOWEST_BLOCK, 0, k);
  }

  /** Whatever the rules, the order they are listed in decides exactly when two of them that
      match have different ids. */
  lemma OrderDecidesIff(cs: seq<Compiled>, a: Bits)
    ensures (forall ys | SameMembers(cs, ys) :: FirstMatch(ys, a) == FirstMatch(cs, a)) <==>
            forall c, d | c in cs && d in cs && Matches(c, a) && Matches(d, a) :: c.id == d.id
  {
    if forall ys | SameMembers(cs, ys) :: FirstMatch(ys, a) == FirstMatch(cs, a) {
      forall c, d | c in cs && d in cs && Matches(c, a) && Matches(d, a)
        ensures c.id == d.id
      {
        assert SameMembers(cs, [c] + cs) && SameMembers(cs, [d] + cs);
        assert FirstMatch([c] + cs, a) == Some(c.id) && FirstMatch([d] + cs, a) == Some(d.id);
      }
    }
    if forall c, d | c in cs && d in cs && Matches(c, a) && Matches(d, a) :: c.id == d.id {
      forall ys | SameMembers(cs, ys)
        ensures FirstMatch(ys, a) == FirstMatch(cs, a)
      {
        FirstMatchIsMember(cs, a);
        FirstMatchIsMember(ys, a);
      }
    }
  }

  ghost predicate SameMembers(xs: seq<Compiled>, ys: seq<Compiled>) {
    forall c :: c in xs <==> c in ys
  }

  /** The entries of a list are CIDR rules of one application. */
  ghost predicate Networks(net: Net, rules: map<nat, Rule>, app: string, cs: seq<Compiled>) {
    forall c <- cs :: c.Network? && Active(net, rules, app, c.id) && Compile(net, c.id, rules[c.id].range) == Some(c)
  }

  lemma {:induction false} FirstMatchIsMember(cs: seq<Compiled>, a: Bits)
    ensures match FirstMatch(cs, a)
            case None => forall c <- cs :: !Matches(c, a)
            case Some(id) => exists c :: c in cs && Matches(c, a) && c.id == id
  {
    if cs != [] {
      FirstMatchIsMember(cs[1..], a);
      assert cs == [cs[0]] + cs[1..];
      if Matches(cs[0], a) {
        assert cs[0] in cs;
      }
    }
  }

  /** The order of an application's CIDR rules does not matter: in every store a run reaches,
      any two listings of the same CIDR rules lead to the same match. */
  lemma MatchIsOrderIndependent(
    net: Net, run: seq<Op>, stores: seq<Store>, n: nat, app: string, xs: seq<Compiled>, ys: seq<Compiled>, a: Bits)
    requires Sane(net) && IsRun(net, run, stores) && n <= |run| && IsAddress(a)
    requires Networks(net, stores[n].rules, app, xs)
    requires SameMembers(xs, ys)
    ensures FirstMatch(xs, a) == FirstMatch(ys, a)
  {
    var rules := stores[n].rules;
    RunKeepsInv(net, run, stores, n);
    FirstMatchIsMember(xs, a);
    FirstMatchIsMember(ys, a);
    if FirstMatch(xs, a).Some? && FirstMatch(ys, a).Some? {
      var x :| x in xs && Matches(x, a) && x.id == FirstMatch(xs, a).value;
      var y :| y in ys && Matches(y, a) && y.id == FirstMatch(ys, a).value;
      AtMostOneNetworkMatches(net, rules, x.id, y.id, a);
    }
  }

  // ----- the service -----

  class IPAccessService {
    const net: Net
    var rules: map<nat, Rule>
    var nextId: nat
    var snapshot: map<string, seq<Compiled>>

    function View(): Store
      reads this
    {
      Store(rules, nextId)
    }

    ghost predicate Valid()
      reads this
    {
      Sane(net) && Inv(net, View())
    }

    constructor (net: Net)
      requires Sane(net)
      ensures Valid() && this.net == net && View() == EMPTY_STORE && snapshot == map[]
    {
      this.net := net;
      rules, nextId, snapshot := map[], 1, map[];
    }

    method CheckOverlap(app: string, range: string, excluded: nat) returns (r: Option<Error>)
      requires Valid()
      ensures Verdict(net, rules, app, range, excluded, r)
    {
      var checked := net.cidr(range);
      if checked.None? {
        var address := net.address(range);
        if address.None? {
          return Some(InvalidRange);
        }
        checked := net.cidr(range + HostSuffix(address.value));
      }
      var b := checked.value;
      for id := 0 to nextId
        invariant forall k :: 0 <= k < id ==> !Blocks(net, rules, app, b, excluded, k)
      {
        if id in rules && rules[id].appId == app && id != excluded {
          var existing := net.cidr(rules[id].range);
          if existing.Some? && (Contains(b, Base(existing.value)) || Contains(existing.value, Base(b))) {
            assert Blocks(net, rules, app, b, excluded, id);
            return Some(Overlaps(id));
          }
        }
      }
      return None;
    }

    method CreateRule(req: CreateRequest) returns (r: Result<nat, Error>)
      requires Valid()
      modifies this`rules, this`nextId
      ensures Valid() && Performed(net, old(View()), Create(req), View(), r)
    {
      if req.appId == "" {
        return Err(AppIdRequired);
      }
      if !ValidRange(net, req.range) {
        return Err(InvalidRange);
      }
      if !ValidAction(req.action) {
        return Err(InvalidAction);
      }
      var conflict := CheckOverlap(req.appId, req.range, 0);
      if conflict.Some? {
        return Err(conflict.value);
      }
      r := Ok(nextId);
      rules := rules[nextId := Rule(req.appId, req.range, req.description, req.action, req.enabled)];
      nextId := nextId + 1;
      OpKeepsInv(net, old(View()), Create(req), View(), r);
    }

    method UpdateRule(app: string, id: nat, req: UpdateRequest) returns (r: Result<nat, Error>)
      requires Valid()
      modifies this`rules
      ensures Valid() && Performed(net, old(View()), Update(app, id, req), View(), r)
    {
      if id !in rules || rules[id].appId != app {
        return Err(NotFound);
      }
      if req.range != "" {
        if !ValidRange(net, req.range) {
          return Err(InvalidRange);
        }
        var conflict := CheckOverlap(app, req.range, id);
        if conflict.Some? {
          return Err(conflict.value);
        }
      }
      if req.action != "" && !ValidAction(req.action) {
        return Err(InvalidAction);
      }
      r := Ok(id);
      rules := rules[id := Updated(rules[id], req)];
      OpKeepsInv(net, old(View()), Update(app, id, req), View(), r);
    }

    method DeleteRule(app: string, id: nat) returns (r: Result<nat, Error>)
      requires Valid()
      modifies this`rules
      ensures Valid() && Performed(net, old(View()), Delete(app, id), View(), r)
    {
      if id !in rules || rules[id].appId != app {
        return Err(NotFound);
      }
      rules := rules - {id};
      return Ok(id);
    }

    /** Lists the enabled rules application by application, each in order of id. */
    method LoadSnapshot()
      requires Valid()
      modifies this`snapshot
      ensures forall app :: ListOf(snapshot, app) == ActiveRules(net, rules, app, nextId)
    {
      var snap: map<string, seq<Compiled>> := map[];
      for id := 0 to nextId
        invariant forall app :: ListOf(snap, app) == ActiveRules(net, rules, app, id)
      {
        if id in rules && rules[id].enabled {
          var c := Compile(net, id, rules[id].range);
          if c.Some? {
            var app := rules[id].appId;
            snap := snap[app := ListOf(snap, app) + [c.value]];
          }
        }
      }
      snapshot := snap;
    }

    method FindMatch(cs: seq<Compiled>, a: Bits) returns (r: Option<nat>)
      ensures r == FirstMatch(cs, a)
    {
      for i := 0 to |cs|
        invariant FirstMatch(cs, a) == FirstMatch(cs[i..], a)
      {
        if Matches(cs[i], a) {
          return Some(cs[i].id);
        }
      }
      return None;
    }

    method CheckIP(app: string, ip: string) returns (r: Result<Option<nat>, Error>)
      ensures r == match net.address(ip)
                   case None => Err(InvalidAddress)
                   case Some(a) => Ok(Lookup(snapshot, app, a))
    {
      var address := net.address(ip);
      if address.None? {
        return Err(InvalidAddress);
      }
      var own := FindMatch(ListOf(snapshot, app), address.value);
      if own.Some? {
        return Ok(own);
      }
      if app != "default" {
        var inherited := FindMatch(ListOf(snapshot, "default"), address.value);
        return Ok(inherited);
      }
      return Ok(None);
    }
  }

  /** A fresh snapshot answers with the application's matching rule of lowest id, and only
      where it has none with the inherited rule of lowest id. */
  lemma LookupIsLowest(net: Net, s: Store, snapshot: map<string, seq<Compiled>>, app: string, a: Bits)
    requires forall x :: ListOf(snapshot, x) == ActiveRules(net, s.rules, x, s.nextId)
    ensures var r := Lookup(snapshot, app, a);
            || (r.Some? && LowestMatch(net, s.rules, app, a, s.nextId, r))
            || (LowestMatch(net, s.rules, app, a, s.nextId, None)
                && LowestMatch(net, s.rules, "default", a, s.nextId, r))
  {
    FirstMatchIsLowest(net, s.rules, app, a, s.nextId);
    FirstMatchIsLowest(net, s.rules, "default", a, s.nextId);
  }

  // ----- what the rules do, in terms of addresses -----

  /** A range covers the addresses of its block, or the one address it is where it is no block. */
  ghost predicate Covers(net: Net, range: string, a: Bits) {
    || (exists b :: net.cidr(range) == Some(b) && Contains(b, a))
    || (net.cidr(range) == None && net.address(range) == Some(a))
  }

  /** Rule `id` is the application's, enabled, and covers the address. */
  ghost predicate Concerns(net: Net, rules: map<nat, Rule>, app: string, id: nat, a: Bits) {
    id in rules && rules[id].appId == app && rules[id].enabled && Covers(net, rules[id].range, a)
  }

  lemma ConcernsIff(net: Net, rules: map<nat, Rule>, app: string, id: nat, a: Bits)
    ensures Concerns(net, rules, app, id, a) <==> Active(net, rules, app, id) && Hits(net, rules, id, a)
  {
  }

  ghost predicate Current(net: Net, s: Store, snapshot: map<string, seq<Compiled>>) {
    forall app :: ListOf(snapshot, app) == ActiveRules(net, s.rules, app, s.nextId)
  }

  /** The application's rule of lowest id that concerns the address. */
  ghost predicate FirstConcerned(net: Net, rules: map<nat, Rule>, app: string, a: Bits, r: Option<nat>) {
    match r
    case None => forall id :: !Concerns(net, rules, app, id, a)
    case Some(k) => Concerns(net, rules, app, k, a) && forall id | Concerns(net, rules, app, id, a) :: k <= id
  }

  lemma ListMatch(net: Net, s: Store, app: string, a: Bits)
    requires IdsBounded(s)
    ensures FirstConcerned(net, s.rules, app, a, FirstMatch(ActiveRules(net, s.rules, app, s.nextId), a))
  {
    FirstMatchIsLowest(net, s.rules, app, a, s.nextId);
    forall id: nat
      ensures Concerns(net, s.rules, app, id, a) <==> Active(net, s.rules, app, id) && Hits(net, s.rules, id, a)
      ensures Concerns(net, s.rules, app, id, a) ==> id < s.nextId
    {
      ConcernsIff(net, s.rules, app, id, a);
    }
  }

  /** A client is answered by the lowest of its application's rules that concern it, and only
      where there is none by the lowest of the inherited ones. */
  lemma LookupAnswers(net: Net, s: Store, snapshot: map<string, seq<Compiled>>, app: string, a: Bits)
    requires IdsBounded(s) && Current(net, s, snapshot)
    ensures var r := Lookup(snapshot, app, a);
            if exists id :: Concerns(net, s.rules, app, id, a) then FirstConcerned(net, s.rules, app, a, r)
            else FirstConcerned(net, s.rules, "default", a, r)
  {
    ListMatch(net, s, app, a);
    ListMatch(net, s, "default", a);
  }

  /** A rule is created exactly when its application is named, its range and action are valid,
      and the block it is checked as shares no address with a CIDR rule of the application. */
  lemma CreationSucceedsIff(net: Net, s: Store, req: CreateRequest, t: Store, r: Result<nat, Error>)
    requires Sane(net) && IdsBounded(s) && Created(net, s, req, t, r)
    ensures r.Ok? <==>
            && req.appId != "" && ValidAction(req.action) && CheckedBlock(net, req.range).Some?
            && forall id, x | id in s.rules && s.rules[id].appId == req.appId && net.cidr(s.rules[id].range).Some? ::
                 !Common(CheckedBlock(net, req.range).value, net.cidr(s.rules[id].range).value, x)
  {
    if CheckedBlock(net, req.range).Some? {
      var b := CheckedBlock(net, req.range).value;
      forall id | id in s.rules && s.rules[id].appId == req.appId && net.cidr(s.rules[id].range).Some?
        ensures Blocks(net, s.rules, req.appId, b, 0, id) <==> exists x :: Common(b, net.cidr(s.rules[id].range).value, x)
      {
        OverlapIffCommon(b, net.cidr(s.rules[id].range).value);
      }
    }
  }

  /** A created rule answers exactly the clients of its application that it covers, if it is
      enabled and no older rule does; the answers of all others stay. */
  lemma CreationTakesEffect(net: Net, s: Store, req: CreateRequest, t: Store, id: nat, app: string, a: Bits, r: Option<nat>)
    requires Sane(net) && IdsBounded(s) && Created(net, s, req, t, Ok(id)) && FirstConcerned(net, s.rules, app, a, r)
    ensures FirstConcerned(net, t.rules, app, a,
              if r.None? && app == req.appId && req.enabled && Covers(net, req.range, a) then Some(id) else r)
    ensures t.rules[id].action == req.action && t.rules - {id} == s.rules
  {
    assert id !in s.rules;
    assert forall k | k != id :: Concerns(net, t.rules, app, k, a) <==> Concerns(net, s.rules, app, k, a);
  }

  /** An updated rule covers its new range, acts by its new action and is enabled as asked, each
      where the request says so and as before where it does not; other rules stay. */
  lemma UpdateTakesEffect(net: Net, s: Store, app: string, id: nat, req: UpdateRequest, t: Store, a: Bits)
    requires Sane(net) && Changed(net, s, app, id, req, t, Ok(id))
    ensures Concerns(net, t.rules, app, id, a) <==>
            && (req.enabled == Some(true) || (req.enabled == None && s.rules[id].enabled))
            && (if req.range == "" then Covers(net, s.rules[id].range, a) else Covers(net, req.range, a))
    ensures t.rules[id].action == (if req.action == "" then s.rules[id].action else req.action)
    ensures t.rules[id].description == (if req.description == "" then s.rules[id].description else req.description)
    ensures ValidAction(s.rules[id].action) ==> ValidAction(t.rules[id].action)
    ensures t.rules - {id} == s.rules - {id} && t.nextId == s.nextId
  {
  }

  /** A deleted rule answers no one, and whoever it did not answer is answered as before. */
  lemma DeletionTakesEffect(net: Net, s: Store, app: string, id: nat, t: Store, other: string, a: Bits, r: Option<nat>)
    requires Deleted(s, app, id, t, Ok(id)) && FirstConcerned(net, s.rules, other, a, r)
    ensures !Concerns(net, t.rules, other, id, a)
    ensures r != Some(id) ==> FirstConcerned(net, t.rules, other, a, r)
  {
    assert forall k | k != id :: Concerns(net, t.rules, other, k, a) <==> Concerns(net, s.rules, other, k, a);
  }
}
