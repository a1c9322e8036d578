/**
 * The proportional swing: each party's riding share is scaled by the ratio of
 * its national target to its national average for the year.
 */
module Projection {
  import opened Parties

  /** The user's national targets; a party without one targets 0 (`ratios.get(party, 0)`). */
  type Targets = map<Party, real>

  function TargetOf(targets: Targets, p: Party): (t: real)
    ensures p !in targets ==> t == 0.0
    ensures p in targets ==> t == targets[p]
  {
    if p in targets then targets[p] else 0.0
  }

  /**
   * The projected share of one party in one riding. Only a positive average is
   * scaled from; a zero or negative average projects to 0.
   */
  function ProjectShare(share: real, target: real, average: real): (r: real)
    ensures average > 0.0 ==> r * average == share * target
    ensures average <= 0.0 ==> r == 0.0
  {
    if average > 0.0 then share * (target / average) else 0.0
  }

  /** The projected shares of all seven parties in one riding. */
  function Project(shares: seq<real>, averages: seq<real>, targets: Targets): (r: seq<real>)
    requires |shares| == PartyCount && |averages| == PartyCount
    ensures |r| == PartyCount
    ensures forall p :: 0 <= p < PartyCount && averages[p] > 0.0 ==>
      r[p] * averages[p] == shares[p] * TargetOf(targets, PartyList[p])
    ensures forall p :: 0 <= p < PartyCount && (averages[p] <= 0.0 || PartyList[p] !in targets) ==>
      r[p] == 0.0
  {
    seq(PartyCount, p requires 0 <= p < PartyCount =>
      ProjectShare(shares[p], TargetOf(targets, PartyList[p]), averages[p]))
  }

  /** A party polling at `k` times its average has its share multiplied by `k`. */
  lemma ProjectScales(share: real, average: real, k: real)
    requires average > 0.0
    ensures ProjectShare(share, k * average, average) == k * share
  {
    var r := ProjectShare(share, k * average, average);
    assert r * average == (k * share) * average;
    CancelPositive(r, k * share, average);
  }

  /** A positive common factor cancels. */
  lemma CancelPositive(x: real, y: real, c: real)
    requires c > 0.0 && x * c == y * c
    ensures x == y
  {
    assert (x - y) * c == 0.0;
  }

  /** Hitting exactly the national average leaves the share as it was. */
  lemma ProjectAtAverage(share: real, average: real)
    requires average > 0.0
    ensures ProjectShare(share, average, average) == share
  {
    ProjectScales(share, average, 1.0);
  }

  /** Non-negative shares and targets give a non-negative projection. */
  lemma ProjectNonnegative(share: real, target: real, average: real)
    requires share >= 0.0 && target >= 0.0
    ensures ProjectShare(share, target, average) >= 0.0
  {
    if average > 0.0 {
      assert target / average >= 0.0;
    }
  }

  /** With no baseline (average 0, or negative) the projection is 0 whatever the target. */
  lemma NoBaselineProjectsZero(share: real, target: real, average: real)
    requires average <= 0.0
    ensures ProjectShare(share, target, average) == 0.0
  {
  }

  /** A party absent from the targets projects to 0 in every riding. */
  lemma UntargetedProjectsZero(shares: seq<real>, averages: seq<real>, targets: Targets, p: nat)
    requires |shares| == PartyCount && |averages| == PartyCount && p < PartyCount
    requires PartyList[p] !in targets
    ensures Project(shares, averages, targets)[p] == 0.0
  {
  }

  /** The worked example: share 0.20, average 0.20, target 0.40 projects to 0.40. */
  lemma ProjectExample()
    ensures ProjectShare(0.20, 0.40, 0.20) == 0.40
  {
    ProjectScales(0.20, 0.20, 2.0);
  }

  /** The projection keeps the ratio between two ridings' shares of one party. */
  lemma ProjectProportional(a: real, b: real, target: real, average: real)
    ensures ProjectShare(a, target, average) * b == ProjectShare(b, target, average) * a
  {
  }
}
