/**
 * National baselines: for each party, the mean of its share over the ridings
 * where it has a non-zero share in the chosen year. A zero share is read as
 * "did not run" and does not enter the denominator.
 */
module Averages {
  import opened Parties
  import opened ResultStore

  /** Field `k` of every stored row, in store order. */
  function Column(store: Store, k: nat): (r: seq<real>)
    requires FullRows(store) && k < RowWidth
    ensures |r| == |store|
    ensures forall i :: 0 <= i < |store| ==> r[i] == store[i].shares[k]
  {
    seq(|store|, i requires 0 <= i < |store| => store[i].shares[k])
  }

  /** The running total: the sum of the non-zero shares. */
  function NonzeroSum(col: seq<real>): real
    decreases |col|
  {
    if |col| == 0 then 0.0
    else NonzeroSum(col[..|col| - 1]) + (if col[|col| - 1] != 0.0 then col[|col| - 1] else 0.0)
  }

  /** The running count: how many shares are non-zero. */
  function NonzeroCount(col: seq<real>): nat
    decreases |col|
  {
    if |col| == 0 then 0
    else NonzeroCount(col[..|col| - 1]) + (if col[|col| - 1] != 0.0 then 1 else 0)
  }

  /**
   * What the mean promises without reference to the running totals: 0 when
   * every share is 0, and otherwise a value between two non-zero shares.
   */
  predicate NonzeroMeanOf(col: seq<real>, m: real) {
    && ((forall i :: 0 <= i < |col| ==> col[i] == 0.0) ==> m == 0.0)
    && ((exists i :: 0 <= i < |col| && col[i] != 0.0) ==>
          exists i, j :: 0 <= i < |col| && 0 <= j < |col| && col[i] != 0.0 && col[j] != 0.0 && col[i] <= m <= col[j])
  }

  /** The mean over non-zero shares, or 0 when there are none. */
  function Mean(col: seq<real>): (m: real)
    ensures NonzeroMeanOf(col, m)
    ensures NonzeroCount(col) > 0 ==> m * (NonzeroCount(col) as real) == NonzeroSum(col)
  {
    var n := NonzeroCount(col);
    NonzeroRatioBounds(col);
    if n > 0 then NonzeroSum(col) / (n as real) else 0.0
  }

  /** `calculate_party_averages_per_year`: one mean per party for year slice `y`. */
  function PartyAverages(store: Store, y: nat): (r: seq<real>)
    requires FullRows(store) && y < YearCount
    ensures |r| == PartyCount
    ensures forall p :: 0 <= p < PartyCount ==> NonzeroMeanOf(Column(store, y * PartyCount + p), r[p])
  {
    var r := seq(PartyCount, p requires 0 <= p < PartyCount => Mean(Column(store, y * PartyCount + p)));
    assert forall p :: 0 <= p < PartyCount ==> r[p] == Mean(Column(store, y * PartyCount + p));
    r
  }

  /** Party `p`'s entry is the mean of its column for the year. */
  lemma PartyAverageOf(store: Store, y: nat, p: nat)
    requires FullRows(store) && y < YearCount && p < PartyCount
    ensures PartyAverages(store, y)[p] == Mean(Column(store, y * PartyCount + p))
  {
  }

  /** The least and the greatest non-zero share, given that there is one. */
  lemma {:induction false} ExtremeNonzero(col: seq<real>, w: nat) returns (lo: nat, hi: nat)
    requires w < |col| && col[w] != 0.0
    ensures lo < |col| && hi < |col| && col[lo] != 0.0 && col[hi] != 0.0
    ensures forall i :: 0 <= i < |col| && col[i] != 0.0 ==> col[lo] <= col[i] <= col[hi]
    decreases |col|
  {
    var n := |col| - 1;
    if w == n && forall i :: 0 <= i < n ==> col[i] == 0.0 {
      lo, hi := n, n;
    } else {
      var w' :| 0 <= w' < n && col[w'] != 0.0;
      var init := col[..n];
      lo, hi := ExtremeNonzero(init, w');
      if col[n] != 0.0 && col[n] < col[lo] {
        lo := n;
      }
      if col[n] != 0.0 && col[n] > col[hi] {
        hi := n;
      }
    }
  }

  /** The ratio the mean computes lies between the least and greatest non-zero share. */
  lemma NonzeroRatioBounds(col: seq<real>)
    ensures NonzeroMeanOf(col, if NonzeroCount(col) > 0 then NonzeroSum(col) / (NonzeroCount(col) as real) else 0.0)
  {
    if w :| 0 <= w < |col| && col[w] != 0.0 {
      var lo, hi := RatioBetween(col, w);
    } else {
      TotalsZeroCount(col);
    }
  }

  /** With a non-zero share present, the ratio lies between two non-zero shares. */
  lemma RatioBetween(col: seq<real>, w: nat) returns (lo: nat, hi: nat)
    requires w < |col| && col[w] != 0.0
    ensures NonzeroCount(col) > 0
    ensures lo < |col| && hi < |col| && col[lo] != 0.0 && col[hi] != 0.0
    ensures col[lo] <= NonzeroSum(col) / (NonzeroCount(col) as real) <= col[hi]
  {
    lo, hi := ExtremeNonzero(col, w);
    NonzeroCounted(col, w);
    TotalsBounded(col, col[lo], col[hi]);
    DivideBetween(col[lo], col[hi], NonzeroSum(col), NonzeroCount(col) as real);
  }

  /** A single non-zero share is enough to be counted. */
  lemma {:induction false} NonzeroCounted(col: seq<real>, w: nat)
    requires w < |col| && col[w] != 0.0
    ensures NonzeroCount(col) > 0
    decreases |col|
  {
    if w < |col| - 1 {
      NonzeroCounted(col[..|col| - 1], w);
    }
  }

  /** Totals over a concatenation split into the totals of the parts. */
  lemma {:induction false} TotalsAppend(a: seq<real>, b: seq<real>)
    ensures NonzeroSum(a + b) == NonzeroSum(a) + NonzeroSum(b)
    ensures NonzeroCount(a + b) == NonzeroCount(a) + NonzeroCount(b)
    decreases |b|
  {
    if |b| == 0 {
      assert a + b == a;
    } else {
      var n := |b| - 1;
      assert (a + b)[..|a + b| - 1] == a + b[..n];
      TotalsAppend(a, b[..n]);
    }
  }

  /** A zero share, wherever it appears, changes neither total. */
  lemma ZeroIgnored(a: seq<real>, b: seq<real>)
    ensures NonzeroSum(a + [0.0] + b) == NonzeroSum(a + b)
    ensures NonzeroCount(a + [0.0] + b) == NonzeroCount(a + b)
    ensures Mean(a + [0.0] + b) == Mean(a + b)
  {
    TotalsAppend(a + [0.0], b);
    TotalsAppend(a, b);
    assert (a + [0.0])[..|a|] == a;
  }

  /** The non-zero shares are bounded by `lo` and `hi` times their count. */
  lemma {:induction false} TotalsBounded(col: seq<real>, lo: real, hi: real)
    requires forall i :: 0 <= i < |col| && col[i] != 0.0 ==> lo <= col[i] <= hi
    ensures lo * (NonzeroCount(col) as real) <= NonzeroSum(col) <= hi * (NonzeroCount(col) as real)
    decreases |col|
  {
    if |col| > 0 {
      var n := |col| - 1;
      TotalsBounded(col[..n], lo, hi);
    }
  }

  /** When some share counts, the mean lies between the least and greatest counted share. */
  lemma MeanBetween(col: seq<real>, lo: real, hi: real)
    requires NonzeroCount(col) > 0
    requires forall i :: 0 <= i < |col| && col[i] != 0.0 ==> lo <= col[i] <= hi
    ensures lo <= Mean(col) <= hi
  {
    RatioWithin(col, lo, hi);
  }

  /** Total over count, for a column with something counted, lies within any bounds of its non-zero shares. */
  lemma RatioWithin(col: seq<real>, lo: real, hi: real)
    requires NonzeroCount(col) > 0
    requires forall i :: 0 <= i < |col| && col[i] != 0.0 ==> lo <= col[i] <= hi
    ensures lo <= NonzeroSum(col) / (NonzeroCount(col) as real) <= hi
  {
    TotalsBounded(col, lo, hi);
    DivideBetween(lo, hi, NonzeroSum(col), NonzeroCount(col) as real);
  }

  /** Bounds on a total carry over to the total divided by a positive count. */
  lemma DivideBetween(lo: real, hi: real, s: real, n: real)
    requires n > 0.0 && lo * n <= s <= hi * n
    ensures lo <= s / n <= hi
  {
    var m := s / n;
    assert m * n == s;
    assert (lo - m) * n <= 0.0;
    assert (m - hi) * n <= 0.0;
  }

  /** With nothing counted the mean is 0. */
  lemma MeanOfZeros(col: seq<real>)
    requires forall i :: 0 <= i < |col| ==> col[i] == 0.0
    ensures Mean(col) == 0.0
  {
    TotalsBounded(col, 1.0, 0.0);
    assert NonzeroCount(col) == 0 by {
      TotalsZeroCount(col);
    }
  }

  /** An all-zero column counts no share. */
  lemma {:induction false} TotalsZeroCount(col: seq<real>)
    requires forall i :: 0 <= i < |col| ==> col[i] == 0.0
    ensures NonzeroCount(col) == 0
    decreases |col|
  {
    if |col| > 0 {
      TotalsZeroCount(col[..|col| - 1]);
    }
  }

  /** The worked example: shares 0.10, 0 and 0.30 average to 0.20, not 0.40 / 3. */
  lemma MeanExample()
    ensures Mean([0.10, 0.0, 0.30]) == 0.20
  {
    var col := [0.10, 0.0, 0.30];
    assert col[..2] == [0.10, 0.0];
    assert col[..2][..1] == [0.10];
    assert [0.10][..0] == [];
    assert NonzeroSum([0.10]) == 0.10 && NonzeroCount([0.10]) == 1;
    assert NonzeroSum([0.10, 0.0]) == 0.10 && NonzeroCount([0.10, 0.0]) == 1;
    assert NonzeroSum(col) == 0.40 && NonzeroCount(col) == 2;
  }

  /** The mean does not depend on the order the ridings are visited in. */
  lemma {:induction false} TotalsPermutation(a: seq<real>, b: seq<real>)
    requires multiset(a) == multiset(b)
    ensures NonzeroSum(a) == NonzeroSum(b) && NonzeroCount(a) == NonzeroCount(b)
    decreases |a|
  {
    if |a| > 0 {
      var n := |a| - 1;
      var x := a[n];
      assert a == a[..n] + [x];
      assert x in multiset(b);
      var k :| 0 <= k < |b| && b[k] == x;
      assert b == b[..k] + [x] + b[k + 1..];
      var rest := b[..k] + b[k + 1..];
      assert multiset(b) == multiset(rest) + multiset{x} by {
        assert multiset(b) == multiset(b[..k]) + multiset([x]) + multiset(b[k + 1..]);
        assert multiset(rest) == multiset(b[..k]) + multiset(b[k + 1..]);
      }
      assert multiset(a) == multiset(a[..n]) + multiset{x} by {
        assert multiset(a) == multiset(a[..n]) + multiset([x]);
      }
      assert multiset(a[..n]) == multiset(a) - multiset{x};
      assert multiset(rest) == multiset(b) - multiset{x};
      TotalsPermutation(a[..n], rest);
      TotalsAppend(a[..n], [x]);
      TotalsAppend(b[..k] + [x], b[k + 1..]);
      TotalsAppend(b[..k], [x]);
      TotalsAppend(b[..k], b[k + 1..]);
    }
  }

  lemma MeanPermutation(a: seq<real>, b: seq<real>)
    requires multiset(a) == multiset(b)
    ensures Mean(a) == Mean(b)
  {
    TotalsPermutation(a, b);
  }

  /**
   * A new riding whose share for party `p` in year `y` is zero leaves that
   * party's average for the year unchanged.
   */
  lemma ZeroRidingKeepsAverage(store: Store, name: string, shares: seq<real>, y: nat, p: nat)
    requires FullRows(store) && |shares| == RowWidth
    requires Lookup(store, name).None?
    requires y < YearCount && p < PartyCount && shares[y * PartyCount + p] == 0.0
    ensures PartyAverages(Put(store, name, shares), y)[p] == PartyAverages(store, y)[p]
  {
    var k := y * PartyCount + p;
    var grown := Put(store, name, shares);
    PartyAverageOf(store, y, p);
    PartyAverageOf(grown, y, p);
    assert Column(grown, k) == Column(store, k) + [0.0] + [];
    assert Column(store, k) + [] == Column(store, k);
    ZeroIgnored(Column(store, k), []);
  }
}
