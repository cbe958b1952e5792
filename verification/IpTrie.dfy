/** The binary trie of IP reputation entries and the longest-prefix match it stands for. */
module IpTrie {
  import opened Outcomes
  import opened IpBits

  datatype Found = NotFound | Score(score: int)

  // ----- addresses as bits -----

  /** The four bytes of an IPv4 address, also when it is written as an IPv6 address. */
  function To4(ip: Address): Option<Address> {
    if |ip| == 4 then Some(ip)
    else if |ip| == 16 && (forall i | 0 <= i < 10 :: ip[i] == 0) && ip[10] == 0xFF && ip[11] == 0xFF then Some(ip[12..])
    else None
  }

  function Normalize(ip: Address): (r: Option<Address>)
    ensures r.Some? ==> |r.value| == 4 || |r.value| == 16
  {
    if To4(ip).Some? then To4(ip) else if |ip| == 16 then Some(ip) else None
  }

  const MAPPED_PREFIX: Address := [0, 0, 0, 0, 0, 0, 0, 0, 0, 0, 0xFF, 0xFF]

  /** The two notations of an IPv4 address come to the same, and no other address is shortened. */
  lemma MappedIsShortened(ip: Address)
    ensures |ip| == 4 ==> Normalize(ip) == Some(ip) && Normalize(MAPPED_PREFIX + ip) == Some(ip)
    ensures |ip| == 16 && !(MAPPED_PREFIX <= ip) ==> Normalize(ip) == Some(ip)
    ensures |ip| != 4 && |ip| != 16 ==> Normalize(ip) == None
  {
    if |ip| == 4 {
      assert (MAPPED_PREFIX + ip)[12..] == ip;
    }
    if |ip| == 16 && To4(ip).Some? {
      assert ip[..12] == MAPPED_PREFIX;
    }
  }

  /** The mask is longer than the address as it is stored. */
  predicate Overruns(ip: Address, ones: nat) {
    Normalize(ip).Some? && ones > 8 * |Normalize(ip).value|
  }

  // ----- the specification: longest matching prefix, the empty one never counts -----

  /** The length of the longest non-empty prefix of `bits`, of length at most `n`, that
      has an entry; 0 if there is none. */
  function MatchLength(entries: map<Bits, int>, bits: Bits, n: nat): (k: nat)
    requires n <= |bits|
    ensures k <= n && (k > 0 ==> bits[..k] in entries)
    ensures forall j | k < j <= n :: bits[..j] !in entries
  {
    if n == 0 then 0
    else if bits[..n] in entries then n
    else MatchLength(entries, bits, n - 1)
  }

  function LongestMatch(entries: map<Bits, int>, bits: Bits, n: nat): Found
    requires n <= |bits|
  {
    var k := MatchLength(entries, bits, n);
    if k == 0 then NotFound else Score(entries[bits[..k]])
  }

  // ----- the trie -----

  class TrieNode {
    var zero: TrieNode?
    var one: TrieNode?
    var score: int
    var hasScore: bool
    /** The bits that lead here from the root. */
    ghost const path: Bits

    constructor (ghost path: Bits)
      ensures zero == null && one == null && !hasScore && this.path == path
    {
      this.path := path;
      zero, one, score, hasScore := null, null, 0, false;
    }

    function Child(bit: bool): TrieNode?
      reads this`zero, this`one
    {
      if bit then one else zero
    }
  }

  class Trie {
    const root: TrieNode
    /** Every node, under its path. */
    ghost var nodes: map<Bits, TrieNode>
    ghost var repr: set<object>

    ghost predicate Valid()
      reads this, repr
    {
      && this !in repr
      && [] in nodes && nodes[[]] == root
      && (forall p | p in nodes :: nodes[p] in repr && nodes[p].path == p)
      && (forall p {:trigger HasParent(p)} | p in nodes :: HasParent(p))
      && (forall p, b: bool {:trigger Linked(p, b)} | p in nodes :: Linked(p, b))
    }

    ghost predicate HasParent(p: Bits)
      reads this
    {
      p != [] ==> p[..|p| - 1] in nodes
    }

    /** A child pointer is set exactly when the longer path has a node, and leads there. */
    ghost predicate Linked(p: Bits, b: bool)
      requires p in nodes
      reads this`nodes, (nodes[p] as TrieNode)`zero, (nodes[p] as TrieNode)`one
    {
      nodes[p].Child(b) == if p + [b] in nodes then nodes[p + [b]] else null
    }

    ghost function Entries(): map<Bits, int>
      requires Valid()
      reads this, repr
    {
      map p | p in nodes && nodes[p].hasScore :: nodes[p].score
    }

    constructor ()
      ensures Valid() && fresh(repr)
      ensures Entries() == map[]
    {
      root := new TrieNode([]);
      nodes := map[[] := root];
      repr := {root};
    }

    /** A mask longer than the address runs over its end, and the program panics; nothing but
        nodes without a score has been added by then. */
    method Insert(ip: Address, ones: nat, score: int) returns (panicked: bool)
      requires Valid()
      modifies this, repr
      ensures Valid() && fresh(repr - old(repr))
      ensures panicked <==> Overruns(ip, ones)
      ensures Entries() == if Normalize(ip).None? || panicked then old(Entries())
                           else old(Entries())[AddressBits(Normalize(ip).value)[..ones] := score]
    {
      var address := Normalize(ip);
      if address.None? {
        return false;
      }
      var a := address.value;
      ghost var bits := AddressBits(a);
      var node := root;
      for i := 0 to ones
        invariant i <= |bits|
        invariant Valid() && fresh(repr - old(repr))
        invariant bits[..i] in nodes && nodes[bits[..i]] == node
        invariant Entries() == old(Entries())
      {
        if i / 8 >= |a| {
          return true;
        }
        var bit := BitOf(a[i / 8], 7 - i % 8);
        assert bits[..i + 1] == bits[..i] + [bit];
        assert Linked(bits[..i], bit);
        if node.Child(bit) == null {
          AddChild(node, bits[..i], bit);
          assert Linked(bits[..i], bit);
        }
        node := node.Child(bit);
      }
      SetScore(node, bits[..ones], score);
      return false;
    }

    /** The score of the longest matching prefix; 0 and false when nothing matches. */
    method LookupBits(ip: Address, maxBits: nat) returns (bestScore: int, found: bool)
      requires Valid() && maxBits <= 8 * |ip|
      ensures Answers(bestScore, found, LongestMatch(Entries(), AddressBits(ip), maxBits))
    {
      ghost var bits := AddressBits(ip);
      var node := root;
      bestScore, found := 0, false;
      var i := 0;
      while i < maxBits
        invariant i <= maxBits
        invariant bits[..i] in nodes && nodes[bits[..i]] == node
        invariant Answers(bestScore, found, LongestMatch(Entries(), bits, i))
      {
        var bit := BitOf(ip[i / 8], 7 - i % 8);
        assert bits[..i + 1] == bits[..i] + [bit];
        assert Linked(bits[..i], bit);
        var child := node.Child(bit);
        if child == null {
          NoLongerMatch(bits, i, maxBits);
          break;
        }
        node := child;
        if node.hasScore {
          bestScore := node.score;
          found := true;
        }
        i := i + 1;
      }
    }

    method Lookup(ip: Address) returns (score: int, found: bool)
      requires Valid()
      ensures Answers(score, found,
                      match Normalize(ip)
                      case None => NotFound
                      case Some(a) => LongestMatch(Entries(), AddressBits(a), 8 * |a|))
    {
      var ip4 := To4(ip);
      if ip4.Some? {
        score, found := LookupBits(ip4.value, 32);
      } else if |ip| == 16 {
        score, found := LookupBits(ip, 128);
      } else {
        score, found := 0, false;
      }
    }

    lemma {:induction false} NoLongerPath(bits: Bits, i: nat, j: nat)
      requires Valid() && i < j <= |bits| && bits[..i + 1] !in nodes
      ensures bits[..j] !in nodes
      decreases j
    {
      if j > i + 1 {
        NoLongerPath(bits, i, j - 1);
        assert bits[..j][..j - 1] == bits[..j - 1];
        assert bits[..j] in nodes ==> HasParent(bits[..j]);
      }
    }

    lemma NoLongerMatch(bits: Bits, i: nat, n: nat)
      requires Valid() && i < n <= |bits| && bits[..i + 1] !in nodes
      ensures LongestMatch(Entries(), bits, n) == LongestMatch(Entries(), bits, i)
    {
      forall j | i < j <= n
        ensures bits[..j] !in Entries()
      {
        NoLongerPath(bits, i, j);
      }
      MatchStops(Entries(), bits, i, n);
    }

    // ----- counting -----

    ghost function EntriesUnder(p: Bits): set<Bits>
      requires Valid()
      reads this, repr
    {
      set q | q in Entries() && p <= q
    }

    ghost function NodesUnder(p: Bits): set<Bits>
      reads this
    {
      set q | q in nodes && p <= q
    }

    method Size() returns (count: nat)
      requires Valid()
      ensures count == |Entries()|
    {
      count := Walk(root, []);
      assert EntriesUnder([]) == Entries().Keys;
    }

    method Walk(n: TrieNode?, ghost p: Bits) returns (count: nat)
      requires Valid()
      requires n == if p in nodes then nodes[p] else null
      ensures count == |EntriesUnder(p)|
      decreases NodesUnder(p)
    {
      if n == null {
        NothingUnder(p);
        return 0;
      }
      assert Linked(p, false) && Linked(p, true);
      NodesUnderShrinks(p, false);
      NodesUnderShrinks(p, true);
      var left := Walk(n.zero, p + [false]);
      var right := Walk(n.one, p + [true]);
      EntriesUnderSplit(p);
      count := left + right + if n.hasScore then 1 else 0;
    }

    lemma NothingUnder(p: Bits)
      requires Valid() && p !in nodes
      ensures EntriesUnder(p) == {}
    {
      forall q | q in nodes
        ensures !(p <= q)
      {
        if p <= q {
          assert q[..|p|] == p;
          PathsAreClosed(q, |p|);
        }
      }
    }

    lemma {:induction false} PathsAreClosed(q: Bits, k: nat)
      requires Valid() && q in nodes && k <= |q|
      ensures q[..k] in nodes
      decreases |q|
    {
      if k == |q| {
        assert q[..k] == q;
      } else {
        assert HasParent(q);
        PathsAreClosed(q[..|q| - 1], k);
        assert q[..|q| - 1][..k] == q[..k];
      }
    }

    lemma NodesUnderShrinks(p: Bits, b: bool)
      requires p in nodes
      ensures NodesUnder(p + [b]) < NodesUnder(p)
    {
      assert p in NodesUnder(p) && p !in NodesUnder(p + [b]);
      forall q | q in NodesUnder(p + [b])
        ensures q in NodesUnder(p)
      {
        PrefixOfSnoc(p, b, q);
      }
    }

    lemma EntriesUnderCases(p: Bits, q: Bits)
      requires Valid() && p in nodes
      ensures q in EntriesUnder(p) <==>
              (q == p && nodes[p].hasScore) || q in EntriesUnder(p + [false]) || q in EntriesUnder(p + [true])
      ensures !(q in EntriesUnder(p + [false]) && q in EntriesUnder(p + [true]))
      ensures q == p ==> q !in EntriesUnder(p + [false]) && q !in EntriesUnder(p + [true])
    {
      if p <= q && q != p {
        assert q[..|p| + 1] == p + [q[|p|]];
      }
      PrefixOfSnoc(p, false, q);
      PrefixOfSnoc(p, true, q);
    }

    lemma EntriesUnderSplit(p: Bits)
      requires Valid() && p in nodes
      ensures |EntriesUnder(p)| ==
              |EntriesUnder(p + [false])| + |EntriesUnder(p + [true])| + if nodes[p].hasScore then 1 else 0
    {
      var here: set<Bits> := if nodes[p].hasScore then {p} else {};
      forall q
        ensures q in EntriesUnder(p) <==> q in here || q in EntriesUnder(p + [false]) || q in EntriesUnder(p + [true])
        ensures !(q in EntriesUnder(p + [false]) && q in EntriesUnder(p + [true]))
        ensures q in here ==> q !in EntriesUnder(p + [false]) && q !in EntriesUnder(p + [true])
      {
        EntriesUnderCases(p, q);
      }
      ThreeParts(EntriesUnder(p), here, EntriesUnder(p + [false]), EntriesUnder(p + [true]));
    }

    method SetScore(node: TrieNode, ghost p: Bits, score: int)
      requires Valid() && p in nodes && nodes[p] == node
      modifies node`score, node`hasScore
      ensures Valid()
      ensures Entries() == old(Entries())[p := score]
    {
      node.score := score;
      node.hasScore := true;
      assert forall q | q in nodes && q != p :: nodes[q] != node;
      assert forall q | q in nodes && q != p :: nodes[q].hasScore == old(nodes[q].hasScore) && nodes[q].score == old(nodes[q].score);
      assert forall q, b: bool {:trigger Linked(q, b)} | q in nodes :: old(Linked(q, b)) ==> Linked(q, b);
    }

    /** Hang a fresh leaf under `node`, the node at path `p`. */
    method AddChild(node: TrieNode, ghost p: Bits, bit: bool)
      requires Valid() && p in nodes && nodes[p] == node && node.Child(bit) == null
      modifies this, node`zero, node`one
      ensures Valid() && fresh(repr - old(repr))
      ensures p + [bit] !in old(nodes) && p + [bit] in nodes && nodes == old(nodes)[p + [bit] := nodes[p + [bit]]]
      ensures fresh(nodes[p + [bit]]) && !nodes[p + [bit]].hasScore
    {
      assert Linked(p, bit);
      ghost var q := p + [bit];
      var leaf := new TrieNode(q);
      if bit {
        node.one := leaf;
      } else {
        node.zero := leaf;
      }
      nodes := nodes[q := leaf];
      repr := repr + {leaf};
      assert q[..|q| - 1] == p;
      forall r | r in nodes
        ensures HasParent(r)
      {
        assert r != q ==> old(HasParent(r));
      }
      forall r, b: bool | r in nodes
        ensures Linked(r, b)
      {
        SnocInjective(r, b, p, bit);
        if r == q {
          SnocInjective(q, b, p, bit);
          assert (q + [b])[..|q|] == q;
          assert q + [b] in old(nodes) ==> old(HasParent(q + [b]));
        } else {
          assert old(Linked(r, b));
        }
      }
    }
  }

  predicate Answers(score: int, found: bool, r: Found) {
    match r
    case NotFound => !found && score == 0
    case Score(n) => found && score == n
  }

  lemma ThreeParts(all: set<Bits>, a: set<Bits>, b: set<Bits>, c: set<Bits>)
    requires forall q :: q in all <==> q in a || q in b || q in c
    requires a !! b && a !! c && b !! c
    ensures |all| == |a| + |b| + |c|
  {
    assert all == a + b + c;
  }

  lemma PrefixOfSnoc(p: Bits, b: bool, q: Bits)
    ensures p + [b] <= q <==> p <= q && |q| > |p| && q[|p|] == b
  {
    if p + [b] <= q {
      assert q[..|p|] == (p + [b])[..|p|] == p;
      assert q[|p|] == (p + [b])[|p|];
    }
  }

  lemma {:induction false} MatchStops(entries: map<Bits, int>, bits: Bits, i: nat, n: nat)
    requires i <= n <= |bits| && forall j | i < j <= n :: bits[..j] !in entries
    ensures MatchLength(entries, bits, n) == MatchLength(entries, bits, i)
    decreases n
  {
    if i < n {
      MatchStops(entries, bits, i, n - 1);
    }
  }

  lemma SnocInjective(p: Bits, b: bool, q: Bits, c: bool)
    ensures p + [b] == q + [c] <==> p == q && b == c
    ensures p + [b] != p
  {
    if p + [b] == q + [c] {
      assert (p + [b])[|p|] == b && (p + [b])[..|p|] == p;
      assert (q + [c])[|q|] == c && (q + [c])[..|q|] == q;
    }
  }

  // ----- agreement with a scan of the inserted entries -----

  type Entry = (Bits, int)

  /** What a run of inserts leaves: the latest score of each prefix. */
  function EntriesOf(history: seq<Entry>): (m: map<Bits, int>)
    ensures forall p :: p in m <==> exists i | 0 <= i < |history| :: history[i].0 == p
  {
    if history == [] then map[]
    else
      var last := history[|history| - 1];
      EntriesOf(history[..|history| - 1])[last.0 := last.1]
  }

  predicate Matches(e: Entry, bits: Bits) {
    e.0 != [] && e.0 <= bits
  }

  /** Scan the history in order; a longer or equally long match replaces the best so far. */
  function LinearScan(history: seq<Entry>, bits: Bits): (best: Option<Entry>)
    ensures best.Some? ==> Matches(best.value, bits)
  {
    if history == [] then None
    else
      var best, last := LinearScan(history[..|history| - 1], bits), history[|history| - 1];
      if Matches(last, bits) && (best.None? || |best.value.0| <= |last.0|) then Some(last) else best
  }

  /** What the scan finds: an entry that matches, none that matches is longer, and none
      of equal length comes after it. */
  lemma {:induction false} LinearScanIsLongest(history: seq<Entry>, bits: Bits)
    ensures match LinearScan(history, bits)
            case None => forall i | 0 <= i < |history| :: !Matches(history[i], bits)
            case Some(e) => exists k | 0 <= k < |history| ::
              && history[k] == e
              && Matches(history[k], bits)
              && (forall i | 0 <= i < |history| && Matches(history[i], bits) :: |history[i].0| <= |e.0|)
              && (forall i | k < i < |history| :: history[i].0 != e.0)
  {
    if history != [] {
      var n, front := |history| - 1, history[..|history| - 1];
      LinearScanIsLongest(front, bits);
      var best, last := LinearScan(front, bits), history[n];
      assert forall i | 0 <= i < n :: history[i] == front[i];
      if Matches(last, bits) && (best.None? || |best.value.0| <= |last.0|) {
        assert history[n] == last;
      } else if best.Some? {
        var e := best.value;
        var k :| 0 <= k < |front| && front[k] == e && (forall i | k < i < |front| :: front[i].0 != e.0);
        assert history[k] == e;
        assert last.0 != e.0;
      }
    }
  }

  /** The trie's answer over a run of inserts is the linear scan's: the longest matching
      non-empty prefix, the latest insert of it, and nothing exactly when none matches. */
  lemma {:induction false} LongestMatchIsLinearScan(history: seq<Entry>, bits: Bits)
    ensures match LinearScan(history, bits)
            case None => MatchLength(EntriesOf(history), bits, |bits|) == 0
            case Some(e) =>
              && MatchLength(EntriesOf(history), bits, |bits|) == |e.0|
              && bits[..|e.0|] == e.0
              && EntriesOf(history)[e.0] == e.1
  {
    var n := |bits|;
    if history == [] {
      assert MatchLength(EntriesOf(history), bits, n) == 0;
    } else {
      var front, last := history[..|history| - 1], history[|history| - 1];
      LongestMatchIsLinearScan(front, bits);
      InsertOne(EntriesOf(front), bits, last);
    }
  }

  lemma InsertOne(m: map<Bits, int>, bits: Bits, e: Entry)
    ensures MatchLength(m[e.0 := e.1], bits, |bits|) ==
            if Matches(e, bits) && |e.0| >= MatchLength(m, bits, |bits|) then |e.0| else MatchLength(m, bits, |bits|)
  {
    var k, k' := MatchLength(m, bits, |bits|), MatchLength(m[e.0 := e.1], bits, |bits|);
    if Matches(e, bits) {
      assert bits[..|e.0|] == e.0;
    }
  }

  /** The /0 entry is never consulted: the answer is the full longest-prefix match
      unless the only match is the entry for the empty prefix. */
  lemma DefaultRouteIsMissed(entries: map<Bits, int>, bits: Bits)
    ensures var full := if LongestMatch(entries, bits, |bits|).Score? then LongestMatch(entries, bits, |bits|)
                        else if [] in entries then Score(entries[[]])
                        else NotFound;
            LongestMatch(entries, bits, |bits|) == full <==>
            [] !in entries || exists j | 1 <= j <= |bits| :: bits[..j] in entries
  {
  }
}
