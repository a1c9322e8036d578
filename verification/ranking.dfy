/**
 * Picking the projected winner: the parties are sorted by projected share,
 * highest first, by a stable sort, so parties with equal shares stay in party
 * list order. The winner is the first of the sorted list and the margin is the
 * gap to the second.
 */
module Ranking {
  import opened Parties

  datatype Vote = Vote(party: Party, share: real)

  /** `a` comes before `b` in the ranking: a higher share, or an equal share and an earlier party. */
  predicate Ahead(a: Vote, b: Vote) {
    a.share > b.share || (a.share == b.share && Index(a.party) < Index(b.party))
  }

  /** Every vote is ahead of every later vote. */
  predicate Ranked(s: seq<Vote>) {
    forall i, j :: 0 <= i < j < |s| ==> Ahead(s[i], s[j])
  }

  /** The votes are in party list order. */
  predicate InListOrder(s: seq<Vote>) {
    forall i, j :: 0 <= i < j < |s| ==> Index(s[i].party) < Index(s[j].party)
  }

  /**
   * Inserts `x` after every vote whose share is at least its own. As `x`
   * comes later in the party list than all of `s`, ties keep list order.
   */
  function Insert(x: Vote, s: seq<Vote>): (r: seq<Vote>)
    ensures multiset(r) == multiset(s) + multiset{x}
    decreases |s|
  {
    if |s| == 0 then [x]
    else if s[0].share >= x.share then
      assert s == [s[0]] + s[1..];
      [s[0]] + Insert(x, s[1..])
    else
      [x] + s
  }

  /** Inserting a vote later in list order than all of a ranking keeps it ranked. */
  lemma {:induction false} InsertRanked(x: Vote, s: seq<Vote>)
    requires Ranked(s)
    requires forall i :: 0 <= i < |s| ==> Index(s[i].party) < Index(x.party)
    ensures Ranked(Insert(x, s))
    decreases |s|
  {
    if |s| > 0 && s[0].share >= x.share {
      var rest := Insert(x, s[1..]);
      InsertRanked(x, s[1..]);
      forall k | 0 <= k < |rest|
        ensures Ahead(s[0], rest[k])
      {
        assert rest[k] in multiset(s[1..]) + multiset{x} by {
          assert rest[k] in multiset(rest);
        }
        if rest[k] != x {
          assert rest[k] in s[1..];
        }
      }
      assert Insert(x, s) == [s[0]] + rest;
    }
  }

  /** The last vote of a list in party order comes after any arrangement of the others. */
  lemma LastComesLast(s: seq<Vote>, others: seq<Vote>)
    requires InListOrder(s) && |s| > 0
    requires multiset(others) == multiset(s[..|s| - 1])
    ensures forall i :: 0 <= i < |others| ==> Index(others[i].party) < Index(s[|s| - 1].party)
  {
    forall i | 0 <= i < |others|
      ensures Index(others[i].party) < Index(s[|s| - 1].party)
    {
      assert others[i] in multiset(s[..|s| - 1]);
      var k :| 0 <= k < |s| - 1 && s[..|s| - 1][k] == others[i];
      assert s[k] == others[i];
    }
  }

  /** `sorted(votes, key=share, reverse=True)`, stable: the votes added one at a time. */
  function SortDesc(s: seq<Vote>): (r: seq<Vote>)
    requires InListOrder(s)
    ensures Ranked(r)
    ensures multiset(r) == multiset(s)
    decreases |s|
  {
    if |s| == 0 then []
    else
      var n := |s| - 1;
      var sorted := SortDesc(s[..n]);
      LastComesLast(s, sorted);
      InsertRanked(s[n], sorted);
      assert s == s[..n] + [s[n]];
      Insert(s[n], sorted)
  }

  /** Two rankings of the same votes start with the same vote. */
  lemma RankedHeadsAgree(a: seq<Vote>, b: seq<Vote>)
    requires Ranked(a) && Ranked(b) && multiset(a) == multiset(b) && |a| > 0
    ensures |b| > 0 && a[0] == b[0]
  {
    assert a[0] in multiset(b);
    var i :| 0 <= i < |b| && b[i] == a[0];
    assert b[0] in multiset(a);
    var j :| 0 <= j < |a| && a[j] == b[0];
    var x, y := a[0], b[0];
    assert i == 0 || j == 0 || (Ahead(y, x) && Ahead(x, y));
  }

  /** Dropping the first vote of a ranking leaves a ranking of the rest. */
  lemma RankedTail(a: seq<Vote>)
    requires Ranked(a) && |a| > 0
    ensures Ranked(a[1..])
    ensures multiset(a[1..]) == multiset(a) - multiset{a[0]}
  {
    assert a == [a[0]] + a[1..];
  }

  /**
   * A ranking of distinct votes is unique, so any stable descending sort of
   * votes in list order yields exactly the result of `SortDesc`.
   */
  lemma {:induction false} RankingUnique(a: seq<Vote>, b: seq<Vote>)
    requires Ranked(a) && Ranked(b) && multiset(a) == multiset(b)
    ensures a == b
    decreases |a|
  {
    if |a| > 0 {
      RankedHeadsAgree(a, b);
      RankedTail(a);
      RankedTail(b);
      RankingUnique(a[1..], b[1..]);
      assert a == [a[0]] + a[1..] && b == [b[0]] + b[1..];
    } else {
      assert |b| == |multiset(b)| == 0;
    }
  }

  /** `party_votes.items()`: the projected shares paired with their parties, in list order. */
  function Tally(projected: seq<real>): (r: seq<Vote>)
    requires |projected| == PartyCount
    ensures |r| == PartyCount && InListOrder(r)
    ensures forall p :: 0 <= p < PartyCount ==> r[p] == Vote(PartyList[p], projected[p])
  {
    seq(PartyCount, p requires 0 <= p < PartyCount => Vote(PartyList[p], projected[p]))
  }

  /** The projected winner and the gap between the first and second share. */
  datatype Outcome = Outcome(winner: Party, margin: real)

  /** The ranking step: there are always seven entries, so the margin is always taken. */
  function Decide(projected: seq<real>): Outcome
    requires |projected| == PartyCount
  {
    var sorted := SortDesc(Tally(projected));
    assert |sorted| == |multiset(sorted)| == PartyCount;
    Outcome(sorted[0].party, sorted[0].share - sorted[1].share)
  }

  /** A party other than the first of the ranking is no further ahead than the second. */
  lemma BehindTop(projected: seq<real>, sorted: seq<Vote>, p: nat)
    requires |projected| == PartyCount && p < PartyCount
    requires sorted == SortDesc(Tally(projected)) && |sorted| == PartyCount
    requires sorted[0] != Tally(projected)[p]
    ensures projected[p] <= sorted[1].share
    ensures Ahead(sorted[0], Tally(projected)[p])
  {
    var tally := Tally(projected);
    assert tally[p] in multiset(sorted);
    var k :| 0 <= k < |sorted| && sorted[k] == tally[p];
    assert Ahead(sorted[0], sorted[k]);
    if k > 1 {
      assert Ahead(sorted[1], sorted[k]);
    }
  }

  /** Where the first two votes of the ranking sit in the party list. */
  lemma RankingHeads(projected: seq<real>) returns (w: nat, s: nat)
    requires |projected| == PartyCount
    ensures w < PartyCount && s < PartyCount && w != s
    ensures Decide(projected) == Outcome(PartyList[w], projected[w] - projected[s])
    ensures forall p :: 0 <= p < PartyCount && p != w ==> projected[p] <= projected[s]
    ensures forall p :: 0 <= p < PartyCount && p != w ==>
      projected[p] < projected[w] || (projected[p] == projected[w] && w < p)
  {
    var tally := Tally(projected);
    var sorted := SortDesc(tally);
    assert |sorted| == |multiset(sorted)| == PartyCount;
    assert sorted[0] in multiset(tally);
    w :| 0 <= w < PartyCount && tally[w] == sorted[0];
    assert sorted[1] in multiset(tally);
    s :| 0 <= s < PartyCount && tally[s] == sorted[1];
    assert Ahead(sorted[0], sorted[1]);
    forall p | 0 <= p < PartyCount && p != w
      ensures projected[p] <= projected[s]
      ensures projected[p] < projected[w] || (projected[p] == projected[w] && w < p)
    {
      BehindTop(projected, sorted, p);
      IndexInverse(p);
      IndexInverse(w);
    }
  }

  /**
   * The winner has the greatest projected share and is the earliest party in
   * list order that has it; the margin is the gap to the best of the others.
   */
  lemma DecideIsFirstMaximum(projected: seq<real>)
    requires |projected| == PartyCount
    ensures var w := Index(Decide(projected).winner);
      && (forall p :: 0 <= p < PartyCount ==> projected[p] <= projected[w])
      && (forall p :: 0 <= p < w ==> projected[p] < projected[w])
      && Decide(projected).margin >= 0.0
      && (forall p :: 0 <= p < PartyCount && p != w ==> projected[p] <= projected[w] - Decide(projected).margin)
      && (exists p :: 0 <= p < PartyCount && p != w && projected[p] == projected[w] - Decide(projected).margin)
  {
    var w, s := RankingHeads(projected);
    IndexInverse(w);
    assert projected[s] <= projected[w];
  }

  /** With every share zero, the Liberals win with margin 0. */
  lemma AllZeroGoesToFirstParty(projected: seq<real>)
    requires |projected| == PartyCount
    requires forall p :: 0 <= p < PartyCount ==> projected[p] == 0.0
    ensures Decide(projected) == Outcome(LPC, 0.0)
  {
    DecideIsFirstMaximum(projected);
    var w := Index(Decide(projected).winner);
    assert projected[0] == 0.0 && projected[w] == 0.0;
  }
}
