/** The reputation index: single addresses first, then the trie; and what sharing one trie
    between IPv4 and IPv6 does to it. */
module IpReputation {
  import opened Outcomes
  import opened IpBits
  import opened IpTrie

  /** A stored reputation entry, its value already parsed. */
  datatype Reputation =
    | Cidr(ip: Address, ones: nat, score: int)
    | Single(ip: Address, score: int)

  /** The entry makes the trie's insert run over the end of the address. */
  predicate Panics(r: Reputation) {
    r.Cidr? && Overruns(r.ip, r.ones)
  }

  /** The entry goes into the trie. */
  predicate Stored(r: Reputation) {
    r.Cidr? && Normalize(r.ip).Some? && !Overruns(r.ip, r.ones)
  }

  function Prefix(r: Reputation): Bits
    requires Stored(r)
  {
    AddressBits(Normalize(r.ip).value)[..r.ones]
  }

  /** The trie inserts a load makes, in order. */
  function CidrHistory(rs: seq<Reputation>): seq<Entry> {
    if rs == [] then []
    else
      var r, before := rs[|rs| - 1], CidrHistory(rs[..|rs| - 1]);
      if Stored(r) then before + [(Prefix(r), r.score)] else before
  }

  function Singles(rs: seq<Reputation>): map<Address, int> {
    if rs == [] then map[]
    else
      var r, before := rs[|rs| - 1], Singles(rs[..|rs| - 1]);
      if r.Single? && Normalize(r.ip).Some? then before[Normalize(r.ip).value := r.score] else before
  }

  // ----- the reference: the best entry of a list, by its index -----

  /** The entry's prefix is not empty and begins the address. */
  predicate Covers(r: Reputation, a: Address) {
    Stored(r) && Prefix(r) != [] && Prefix(r) <= AddressBits(a)
  }

  predicate SameFamily(r: Reputation, a: Address) {
    Normalize(r.ip).Some? && |Normalize(r.ip).value| == |a|
  }

  /** `own` restricts the candidates to the family of the address. */
  predicate Candidate(r: Reputation, a: Address, own: bool) {
    Covers(r, a) && (own ==> SameFamily(r, a))
  }

  /** Entry `i` takes precedence over entry `j`: it is longer, or as long and listed later. */
  predicate Beats(rs: seq<Reputation>, i: nat, j: nat)
    requires i < |rs| && j < |rs| && Stored(rs[i]) && Stored(rs[j])
  {
    |Prefix(rs[i])| > |Prefix(rs[j])| || (|Prefix(rs[i])| == |Prefix(rs[j])| && i > j)
  }

  function Best(rs: seq<Reputation>, a: Address, own: bool): (best: Option<nat>)
    ensures best.Some? ==> best.value < |rs| && Candidate(rs[best.value], a, own)
  {
    if rs == [] then None
    else
      var n := |rs| - 1;
      var best := Best(rs[..n], a, own);
      if Candidate(rs[n], a, own) && (best.None? || |Prefix(rs[best.value])| <= |Prefix(rs[n])|) then Some(n) else best
  }

  /** The scan finds the candidate that beats every other, and nothing when there is none. */
  lemma {:induction false} BestBeatsAll(rs: seq<Reputation>, a: Address, own: bool)
    ensures match Best(rs, a, own)
            case None => forall i | 0 <= i < |rs| :: !Candidate(rs[i], a, own)
            case Some(k) => forall i | 0 <= i < |rs| && Candidate(rs[i], a, own) :: i == k || Beats(rs, k, i)
  {
    if rs != [] {
      var n := |rs| - 1;
      BestBeatsAll(rs[..n], a, own);
      assert forall i | 0 <= i < n :: rs[..n][i] == rs[i];
      var best := Best(rs[..n], a, own);
      if best.Some? {
        assert forall i | 0 <= i < n && Candidate(rs[i], a, own) :: i == best.value || Beats(rs[..n], best.value, i);
      }
    }
  }

  /** The trie entry of the best block. */
  function EntryOf(rs: seq<Reputation>, best: Option<nat>): Option<Entry>
    requires best.Some? ==> best.value < |rs| && Stored(rs[best.value])
  {
    if best.None? then None else Some((Prefix(rs[best.value]), rs[best.value].score))
  }

  lemma ScanStep(before: seq<Entry>, e: Entry, bits: Bits)
    ensures LinearScan(before + [e], bits) ==
            var best := LinearScan(before, bits);
            if Matches(e, bits) && (best.None? || |best.value.0| <= |e.0|) then Some(e) else best
  {
    assert (before + [e])[..|before|] == before;
  }

  /** The linear scan of the trie's inserts finds that entry. */
  lemma {:induction false} BestIsLinearScan(rs: seq<Reputation>, a: Address)
    ensures LinearScan(CidrHistory(rs), AddressBits(a)) == EntryOf(rs, Best(rs, a, false))
  {
    if rs != [] {
      var front, r := rs[..|rs| - 1], rs[|rs| - 1];
      BestIsLinearScan(front, a);
      if Stored(r) {
        ScanStep(CidrHistory(front), (Prefix(r), r.score), AddressBits(a));
      }
    }
  }

  function ScoreOf(rs: seq<Reputation>, best: Option<nat>): Found
    requires best.Some? ==> best.value < |rs|
  {
    if best.None? then NotFound else Score(rs[best.value].score)
  }

  /** An entry for the very address, else the best block: of any family, or of its own. */
  function ReferenceLookup(rs: seq<Reputation>, ip: Address, own: bool): Found {
    match Normalize(ip)
    case None => NotFound
    case Some(a) => if a in Singles(rs) then Score(Singles(rs)[a]) else ScoreOf(rs, Best(rs, a, own))
  }

  /** Within a family a block covers an address exactly when it has a mask, and the two agree as
      numbers under it. */
  lemma CoversIffMask(r: Reputation, a: Address)
    requires Stored(r) && SameFamily(r, a)
    ensures Covers(r, a) <==>
            r.ones > 0 && AgreeAbove(AddressNumber(Normalize(r.ip).value), AddressNumber(a), 8 * |a| - r.ones)
  {
    PrefixIffMask(Normalize(r.ip).value, a, r.ones);
    CoversIffPrefix(r, a);
  }

  lemma CoversIffPrefix(r: Reputation, a: Address)
    requires Stored(r) && SameFamily(r, a)
    ensures Covers(r, a) <==> r.ones > 0 && AddressBits(Normalize(r.ip).value)[..r.ones] == AddressBits(a)[..r.ones]
  {
    SamePrefix(Prefix(r), AddressBits(a));
  }

  lemma SamePrefix(p: Bits, bits: Bits)
    requires |p| <= |bits|
    ensures p <= bits <==> p == bits[..|p|]
  {
  }

  /** For example 10.0.0.0/9 scores 10.1.2.3. */
  lemma TenIsCovered(score: int)
    ensures ReferenceLookup([Cidr([10, 0, 0, 0], 9, score)], [10, 1, 2, 3], false) == Score(score)
  {
    var net: Address, a: Address := [10, 0, 0, 0], [10, 1, 2, 3];
    var rs := [Cidr(net, 9, score)];
    NumberOfFour(net);
    NumberOfFour(a);
    EightMoreBits(7);
    EightMoreBits(15);
    assert Pow2(7) == 128;
    AgreeAboveIffQuotients(AddressNumber(net), AddressNumber(a), 23);
    CoversIffMask(rs[0], a);
    BestBeatsAll(rs, a, false);
    assert rs[..0] == [] && Singles(rs) == map[];
  }

  lemma NumberOfFour(a: Address)
    requires |a| == 4
    ensures AddressNumber(a) == a[0] as int * 16777216 + a[1] as int * 65536 + a[2] as int * 256 + a[3] as int
  {
    assert a[..3][..2] == a[..2] && a[..2][..1] == a[..1] && a[..1][..0] == [];
    assert AddressNumber(a[..1]) == a[0];
    assert AddressNumber(a[..2]) == a[0] as int * 256 + a[1] as int;
  }

  // ----- two families in one trie -----

  /** Every block of the other family that covers the address is beaten by one of its own. */
  ghost predicate OwnFamilyPrevails(rs: seq<Reputation>, a: Address) {
    forall i | 0 <= i < |rs| && Covers(rs[i], a) && !SameFamily(rs[i], a) ::
      exists j | 0 <= j < |rs| :: Candidate(rs[j], a, true) && Beats(rs, j, i)
  }

  /** The entry the index goes by is the best one of the address's own family exactly when no
      block of the other family comes before all of those. */
  lemma FamiliesAgreeIff(rs: seq<Reputation>, a: Address)
    ensures Best(rs, a, false) == Best(rs, a, true) <==> OwnFamilyPrevails(rs, a)
  {
    BestBeatsAll(rs, a, false);
    BestBeatsAll(rs, a, true);
    var any, mine := Best(rs, a, false), Best(rs, a, true);
    if any == mine {
      forall i | 0 <= i < |rs| && Covers(rs[i], a) && !SameFamily(rs[i], a)
        ensures exists j | 0 <= j < |rs| :: Candidate(rs[j], a, true) && Beats(rs, j, i)
      {
        assert Candidate(rs[i], a, false);
        assert Candidate(rs[mine.value], a, true) && Beats(rs, mine.value, i);
      }
    }
    if OwnFamilyPrevails(rs, a) && any.Some? {
      assert SameFamily(rs[any.value], a);
      assert Candidate(rs[any.value], a, true) && Candidate(rs[mine.value], a, false);
    }
  }

  lemma FamilyLookupAgrees(rs: seq<Reputation>, ip: Address)
    requires Normalize(ip).Some? ==> OwnFamilyPrevails(rs, Normalize(ip).value)
    ensures ReferenceLookup(rs, ip, false) == ReferenceLookup(rs, ip, true)
  {
    if Normalize(ip).Some? {
      FamiliesAgreeIff(rs, Normalize(ip).value);
    }
  }

  /** The first bits of an IPv6 block and of an IPv4 address. */
  lemma SharedPrefix(six: Address, four: Address, ones: nat)
    requires |six| == 16 && |four| == 4 && six[..4] == four && ones <= 32
    ensures AddressBits(six)[..ones] <= AddressBits(four)
  {
    forall i | 0 <= i < ones
      ensures AddressBits(six)[i] == AddressBits(four)[i]
    {
      assert six[i / 8] == six[..4][i / 8];
    }
  }

  const ZEROS: Address := [0, 0, 0, 0, 0, 0, 0, 0, 0, 0, 0, 0]

  /** So an IPv6 block of up to 32 bits scores IPv4 clients: 2a06:f680::/29 alone gives
      42.6.246.128 its score, which has no IPv4 entry at all. */
  lemma Ipv6BlockScoresIpv4Client(score: int)
    ensures var four: Address := [0x2a, 0x06, 0xf6, 0x80];
            var rs := [Cidr(four + ZEROS, 29, score)];
            ReferenceLookup(rs, four, false) == Score(score) && ReferenceLookup(rs, four, true) == NotFound
  {
    var four: Address := [0x2a, 0x06, 0xf6, 0x80];
    var six := four + ZEROS;
    var rs := [Cidr(six, 29, score)];
    assert six[..4] == four && six[0] == 0x2a && Normalize(six) == Some(six) && Normalize(four) == Some(four);
    SharedPrefix(six, four, 29);
    assert |Prefix(rs[0])| == 29 && Covers(rs[0], four) && !SameFamily(rs[0], four);
    BestBeatsAll(rs, four, false);
    BestBeatsAll(rs, four, true);
    assert rs[..0] == [] && Singles(rs) == map[];
  }

  /** And an IPv4 block in IPv6 notation brings the load down: ::ffff:10.0.0.0/104. */
  lemma MappedBlockPanics(score: int)
    ensures Panics(Cidr([0, 0, 0, 0, 0, 0, 0, 0, 0, 0, 0xff, 0xff, 10, 0, 0, 0], 104, score))
  {
    var ip: Address := [0, 0, 0, 0, 0, 0, 0, 0, 0, 0, 0xff, 0xff, 10, 0, 0, 0];
    assert To4(ip) == Some(ip[12..]) && |ip[12..]| == 4;
  }

  // ----- the index -----

  class ReputationIndex {
    var ipMap: map<Address, int>
    var cidrTrie: Trie

    /** The index answers as the entries of its latest load. */
    ghost predicate Holds(rs: seq<Reputation>)
      reads this, cidrTrie, cidrTrie.repr
    {
      cidrTrie.Valid() && ipMap == Singles(rs) && cidrTrie.Entries() == EntriesOf(CidrHistory(rs))
    }

    constructor ()
      ensures Holds([])
    {
      ipMap := map[];
      cidrTrie := new Trie();
    }

    /** Build fresh structures and swap them in; a panic on the way leaves the old ones. */
    method Reload(rs: seq<Reputation>) returns (panicked: bool)
      modifies this
      ensures panicked <==> exists i | 0 <= i < |rs| :: Panics(rs[i])
      ensures panicked ==> ipMap == old(ipMap) && cidrTrie == old(cidrTrie)
      ensures !panicked ==> Holds(rs) && fresh(cidrTrie) && fresh(cidrTrie.repr)
    {
      var singles: map<Address, int> := map[];
      var trie := new Trie();
      for i := 0 to |rs|
        invariant fresh(trie) && fresh(trie.repr) && trie.Valid()
        invariant forall k | 0 <= k < i :: !Panics(rs[k])
        invariant singles == Singles(rs[..i])
        invariant trie.Entries() == EntriesOf(CidrHistory(rs[..i]))
        invariant ipMap == old(ipMap) && cidrTrie == old(cidrTrie)
      {
        LoadStep(rs, i);
        match rs[i]
        case Cidr(ip, ones, score) =>
          var overrun := trie.Insert(ip, ones, score);
          if overrun {
            assert Panics(rs[i]);
            return true;
          }
        case Single(ip, score) =>
          if Normalize(ip).Some? {
            singles := singles[Normalize(ip).value := score];
          }
      }
      assert rs[..|rs|] == rs;
      ipMap, cidrTrie := singles, trie;
      return false;
    }

    method LookupIP(ip: Address, ghost rs: seq<Reputation>) returns (score: int, found: bool)
      requires Holds(rs)
      ensures Answers(score, found, ReferenceLookup(rs, ip, false))
    {
      var address := Normalize(ip);
      if address.None? {
        return 0, false;
      }
      if address.value in ipMap {
        return ipMap[address.value], true;
      }
      score, found := cidrTrie.Lookup(ip);
      LongestMatchIsLinearScan(CidrHistory(rs), AddressBits(address.value));
      BestIsLinearScan(rs, address.value);
    }
  }

  /** What one more entry adds. */
  lemma LoadStep(rs: seq<Reputation>, i: nat)
    requires i < |rs|
    ensures Singles(rs[..i + 1]) == if rs[i].Single? && Normalize(rs[i].ip).Some?
                                    then Singles(rs[..i])[Normalize(rs[i].ip).value := rs[i].score] else Singles(rs[..i])
    ensures EntriesOf(CidrHistory(rs[..i + 1])) ==
            if Stored(rs[i]) then EntriesOf(CidrHistory(rs[..i]))[Prefix(rs[i]) := rs[i].score]
            else EntriesOf(CidrHistory(rs[..i]))
  {
    assert rs[..i + 1][..i] == rs[..i];
    if Stored(rs[i]) {
      var before, e := CidrHistory(rs[..i]), (Prefix(rs[i]), rs[i].score);
      assert (before + [e])[..|before|] == before;
    }
  }
}
