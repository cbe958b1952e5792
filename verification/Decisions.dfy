/** Actions, their ranks, and how competing decisions are resolved. */
module Decisions {

  datatype Action = NoAction | Log | Allow | Challenge | Block | Skip | OtherAction(name: string)

  datatype Decision = Decision(action: Action, source: string, reason: string, skipPhases: seq<string>)

  const NO_DECISION := Decision(NoAction, "", "", [])

  function Rank(a: Action): nat {
    match a
    case Block => 4
    case Challenge => 3
    case Allow => 2
    case Log => 1
    case _ => 0
  }

  function Resolve(current: Decision, new_: Decision): Decision {
    if new_.action == Skip then current
    else if Rank(new_.action) > Rank(current.action) then new_
    else current
  }

  /** The decisions offered so far, resolved one after the other. */
  function ResolveAll(offers: seq<Decision>): Decision {
    if offers == [] then NO_DECISION
    else Resolve(ResolveAll(offers[..|offers| - 1]), offers[|offers| - 1])
  }

  /** The resolved decision is the earliest of the highest-ranked offers that are not skips;
      offers without a rank never win. */
  lemma {:induction false} ResolveAllIsEarliestHighest(offers: seq<Decision>)
    ensures var d := ResolveAll(offers);
            && (forall i | 0 <= i < |offers| && offers[i].action != Skip :: Rank(offers[i].action) <= Rank(d.action))
            && (Rank(d.action) == 0 ==> d == NO_DECISION)
            && (Rank(d.action) > 0 ==>
                  exists k | 0 <= k < |offers| ::
                    && offers[k] == d
                    && forall i | 0 <= i < k && offers[i].action != Skip :: Rank(offers[i].action) < Rank(d.action))
  {
    if offers != [] {
      var n, front := |offers| - 1, offers[..|offers| - 1];
      ResolveAllIsEarliestHighest(front);
      assert forall i | 0 <= i < n :: offers[i] == front[i];
      var d, last := ResolveAll(front), offers[n];
      if last.action != Skip && Rank(last.action) > Rank(d.action) {
        assert offers[n] == ResolveAll(offers);
      } else if Rank(d.action) > 0 {
        var k :| 0 <= k < |front| && front[k] == d &&
                 forall i | 0 <= i < k && front[i].action != Skip :: Rank(front[i].action) < Rank(d.action);
        assert offers[k] == d;
      }
    }
  }

  /** More offers never lower the rank of the resolved decision. */
  lemma {:induction false} RankNeverFalls(before: seq<Decision>, after: seq<Decision>)
    requires before <= after
    ensures Rank(ResolveAll(before).action) <= Rank(ResolveAll(after).action)
    decreases |after|
  {
    if before != after {
      RankNeverFalls(before, after[..|after| - 1]);
    }
  }
}
