/** Bounded stores that make room by removing their oldest entries, the way the
    token-bucket shards and the challenge store both do. */
module OldestFirst {

  /** `after` is `before` without some entries, each no later than every survivor. */
  ghost predicate OldestRemoved<V>(before: map<string, V>, after: map<string, V>, stamp: V -> real) {
    && after.Keys <= before.Keys
    && (forall k | k in after :: after[k] == before[k])
    && (forall k, l | k in before && k !in after && l in after :: stamp(before[k]) <= stamp(before[l]))
  }

  lemma OldestRemovedTwice<V>(a: map<string, V>, b: map<string, V>, c: map<string, V>, stamp: V -> real)
    requires OldestRemoved(a, b, stamp) && OldestRemoved(b, c, stamp)
    ensures OldestRemoved(a, c, stamp)
  {
    forall k, l | k in a && k !in c && l in c
      ensures stamp(a[k]) <= stamp(a[l])
    {
      if k in b {
        assert stamp(b[k]) <= stamp(b[l]);
      }
    }
  }

  /** A key with the least stamp, or the empty key when there is nothing to choose from. */
  method FindOldest<V>(m: map<string, V>, stamp: V -> real) returns (oldest: string)
    ensures m == map[] ==> oldest == ""
    ensures m != map[] ==> oldest in m && forall k | k in m :: stamp(m[oldest]) <= stamp(m[k])
  {
    oldest := "";
    var first := true;
    var rest := m.Keys;
    while rest != {}
      invariant rest <= m.Keys
      invariant first <==> rest == m.Keys
      invariant first ==> oldest == ""
      invariant !first ==> oldest in m && forall k | k in m.Keys - rest :: stamp(m[oldest]) <= stamp(m[k])
      decreases rest
    {
      var k :| k in rest;
      if first || stamp(m[k]) < stamp(m[oldest]) {
        oldest := k;
        first := false;
      }
      rest := rest - {k};
    }
  }

  ghost predicate EmptyKeyIsOldest<V>(m: map<string, V>, stamp: V -> real) {
    "" in m && forall k | k in m && k != "" :: stamp(m[""]) < stamp(m[k])
  }

  /** Remove an oldest entry `count` times over.  The empty key is never removed, so it can
      shield everything younger than itself for good. */
  method EvictOldest<V>(m: map<string, V>, count: nat, stamp: V -> real) returns (kept: map<string, V>)
    ensures OldestRemoved(m, kept, stamp)
    ensures "" !in m ==> |kept| == if |m| < count then 0 else |m| - count
    ensures "" in m ==> "" in kept
    ensures EmptyKeyIsOldest(m, stamp) ==> kept == m
  {
    kept := m;
    for i := 0 to count
      invariant OldestRemoved(m, kept, stamp)
      invariant "" !in m ==> |kept| == if |m| < i then 0 else |m| - i
      invariant "" in m ==> "" in kept
      invariant EmptyKeyIsOldest(m, stamp) ==> kept == m
    {
      var oldest := FindOldest(kept, stamp);
      if oldest != "" {
        ghost var before := kept;
        kept := kept - {oldest};
        assert kept.Keys == before.Keys - {oldest};
        OldestRemovedTwice(m, before, kept, stamp);
      } else if "" !in m {
        assert kept == map[];
      }
    }
  }
}
