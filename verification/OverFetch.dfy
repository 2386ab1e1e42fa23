/** Does fetching max(3 * K, 20) hits from each index before fusion suffice for the K best? */
module OverFetch {
  import opened Fusion
  import opened Planner
  import Sql

  const RRF_K: nat := 60

  /** The fusion score of a document over the two full rankings. */
  function Score2(a: seq<string>, b: seq<string>, wa: real, wb: real, x: string): real {
    Score([a, b], [wa, wb], RRF_K, x)
  }

  lemma Score2Splits(a: seq<string>, b: seq<string>, wa: real, wb: real, x: string)
    ensures Score2(a, b, wa, wb, x) == ListScore(a, wa, RRF_K, x) + ListScore(b, wb, RRF_K, x)
  {
    assert Score([a], [wa], RRF_K, x) == ListScore(a, wa, RRF_K, x) by {
      assert Score([], [], RRF_K, x) == 0.0;
      assert [a][..0] == [] && [wa][..0] == [];
    }
    assert [a, b][..1] == [a] && [wa, wb][..1] == [wa];
  }

  /** x is in the full rankings but in neither truncated one. */
  ghost predicate Missed(a: seq<string>, b: seq<string>, p: nat, x: string) {
    && DuplicateFree(a) && DuplicateFree(b)
    && (x in a || x in b)
    && (forall i :: 0 <= i < |a| && i < p ==> a[i] != x)
    && (forall i :: 0 <= i < |b| && i < p ==> b[i] != x)
  }

  /** The documents that score strictly above x. */
  ghost function Above(a: seq<string>, b: seq<string>, wa: real, wb: real, x: string): set<string> {
    set d | d in a + b && Score2(a, b, wa, wb, d) > Score2(a, b, wa, wb, x)
  }

  /** Every document the truncation drops has at least k others strictly above it. */
  ghost predicate Suffices(wa: real, wb: real, k: nat) {
    forall a: seq<string>, b: seq<string>, x: string ::
      Missed(a, b, PerIndex(k), x) ==> |Above(a, b, wa, wb, x)| >= k
  }

  function MaxReal(x: real, y: real): real {
    if x >= y then x else y
  }

  predicate Bound(wa: real, wb: real, k: nat) {
    MaxReal(wa, wb) * (61 + PerIndex(k)) as real > (wa + wb) * (60 + k) as real
  }

  // ---------------------------------------------------------------- arithmetic

  lemma QuotientBelow(x: real, p: real, y: real, q: real)
    requires p > 0.0 && q > 0.0
    ensures x / p < y / q <==> x * q < y * p
  {
    var u, v := x / p, y / q;
    assert u * p == x && v * q == y;
    assert x * q == u * (p * q) && y * p == v * (p * q);
    assert p * q > 0.0;
    if u < v { assert u * (p * q) < v * (p * q); }
    if v <= u { assert v * (p * q) <= u * (p * q); }
  }

  lemma ContributionDeclines(w: real, i: nat, j: nat)
    requires w > 0.0 && i <= j
    ensures Contribution(w, RRF_K, i) >= Contribution(w, RRF_K, j) > 0.0
  {
    HigherRankContributesMore(w, RRF_K, j, j + 1);
    if i < j { HigherRankContributesMore(w, RRF_K, i, j); }
  }

  lemma ContributionsAdd(wa: real, wb: real, p: nat)
    ensures Contribution(wa, RRF_K, p) + Contribution(wb, RRF_K, p) == (wa + wb) / (61 + p) as real
  {
    assert (RRF_K + p + 1) as real == (61 + p) as real;
  }

  /** The bound says that one heavy k-th place beats both p-th places together. */
  lemma BoundMeans(wa: real, wb: real, k: nat)
    requires k >= 1
    ensures Bound(wa, wb, k) <==>
      (wa + wb) / (61 + PerIndex(k)) as real < Contribution(MaxReal(wa, wb), RRF_K, k - 1)
  {
    QuotientBelow(wa + wb, (61 + PerIndex(k)) as real, MaxReal(wa, wb), (60 + k) as real);
    assert (RRF_K + (k - 1) + 1) as real == (60 + k) as real;
  }

  // ---------------------------------------------------------------- the bound suffices

  /** What one list can give a document that its first p places do not hold. */
  lemma MissedScoresLow(list: seq<string>, w: real, p: nat, x: string)
    requires DuplicateFree(list) && w > 0.0
    requires forall i :: 0 <= i < |list| && i < p ==> list[i] != x
    ensures 0.0 <= ListScore(list, w, RRF_K, x) <= Contribution(w, RRF_K, p)
    ensures x in list ==> |list| > p
    ensures x !in list ==> ListScore(list, w, RRF_K, x) == 0.0
  {
    ContributionDeclines(w, p, p);
    if x in list {
      var i :| 0 <= i < |list| && list[i] == x;
      ScoreAtRank(list, w, RRF_K, i);
      ContributionDeclines(w, p, i);
    } else {
      AbsentScoresZero(list, w, RRF_K, x);
    }
  }

  /** The first k documents of one list all score at least its k-th contribution. */
  lemma TopScoresHigh(a: seq<string>, b: seq<string>, wa: real, wb: real, i: nat, k: nat)
    requires DuplicateFree(a) && wa > 0.0 && wb > 0.0 && i < k && i < |a|
    ensures Score2(a, b, wa, wb, a[i]) >= Contribution(wa, RRF_K, k - 1)
    ensures Score2(b, a, wb, wa, a[i]) >= Contribution(wa, RRF_K, k - 1)
  {
    Score2Splits(a, b, wa, wb, a[i]);
    Score2Splits(b, a, wb, wa, a[i]);
    ScoreAtRank(a, wa, RRF_K, i);
    ListScoreIsNotNegative(b, wb, RRF_K, a[i]);
    ContributionDeclines(wa, i, k - 1);
  }

  /** If the k-th place of a list beats x, then k documents lie strictly above x. */
  lemma TopLiesAbove(a: seq<string>, b: seq<string>, wa: real, wb: real, x: string, k: nat, onA: bool)
    requires DuplicateFree(a) && DuplicateFree(b) && wa > 0.0 && wb > 0.0 && k >= 1
    requires k <= |if onA then a else b|
    requires Contribution(if onA then wa else wb, RRF_K, k - 1) > Score2(a, b, wa, wb, x)
    ensures |Above(a, b, wa, wb, x)| >= k
  {
    var list := if onA then a else b;
    var top := list[..k];
    Sql.DistinctCount(top);
    forall d | d in top ensures d in Above(a, b, wa, wb, x) {
      var i :| 0 <= i < k && top[i] == d;
      assert d == list[i];
      if onA { TopScoresHigh(a, b, wa, wb, i, k); } else { TopScoresHigh(b, a, wb, wa, i, k); }
    }
    Sql.Subset((set d | d in top), Above(a, b, wa, wb, x));
  }

  lemma MissedTotal(a: seq<string>, b: seq<string>, wa: real, wb: real, p: nat, x: string)
    requires wa > 0.0 && wb > 0.0 && Missed(a, b, p, x)
    ensures Score2(a, b, wa, wb, x) <= (wa + wb) / (61 + p) as real
    ensures x !in a ==> |b| > p && Score2(a, b, wa, wb, x) <= Contribution(wb, RRF_K, p)
    ensures x !in b ==> |a| > p && Score2(a, b, wa, wb, x) <= Contribution(wa, RRF_K, p)
    ensures |a| <= p ==> x !in a
    ensures |b| <= p ==> x !in b
  {
    Score2Splits(a, b, wa, wb, x);
    MissedScoresLow(a, wa, p, x);
    MissedScoresLow(b, wb, p, x);
    ContributionsAdd(wa, wb, p);
  }

  lemma BoundSuffices(a: seq<string>, b: seq<string>, wa: real, wb: real, k: nat, x: string)
    requires wa > 0.0 && wb > 0.0 && k >= 1 && Bound(wa, wb, k)
    requires Missed(a, b, PerIndex(k), x)
    ensures |Above(a, b, wa, wb, x)| >= k
  {
    var p := PerIndex(k);
    BoundMeans(wa, wb, k);
    MissedTotal(a, b, wa, wb, p, x);
    var heavyA := wa >= wb;
    if |if heavyA then a else b| >= k {
      TopLiesAbove(a, b, wa, wb, x, k, heavyA);
    } else {
      // the heavy list is too short to hold x at all, so the light one alone carries it
      HigherRankContributesMore(if heavyA then wb else wa, RRF_K, k - 1, p);
      TopLiesAbove(a, b, wa, wb, x, k, !heavyA);
    }
  }

  // ---------------------------------------------------------------- and is needed

  function Doc(n: nat): (d: string)
    ensures |d| == n
  {
    seq(n, _ => 'd')
  }

  /** The first k - 1 places are shared, the places up to p are the list's own, and the document with
      number 2p closes it. */
  function Ranking(k: nat, p: nat, own: nat): (r: seq<string>)
    requires 1 <= k <= p
    ensures |r| == p + 1
    ensures forall i :: 0 <= i <= p ==> r[i] == Doc(Number(k, p, own, i))
  {
    seq(p + 1, i requires 0 <= i <= p => Doc(Number(k, p, own, i)))
  }

  function Number(k: nat, p: nat, own: nat, i: nat): nat {
    if i == p then 2 * p else if i + 1 < k then i else own + i
  }

  lemma RankingIsMissed(k: nat, p: nat)
    requires 1 <= k <= p
    ensures Missed(Ranking(k, p, 0), Ranking(k, p, p), p, Doc(2 * p))
  {
    var a, b := Ranking(k, p, 0), Ranking(k, p, p);
    assert a[p] == Doc(2 * p);
    forall i, j | 0 <= i < j <= p ensures a[i] != a[j] && b[i] != b[j] {
      assert |a[i]| != |a[j]| && |b[i]| != |b[j]|;
    }
    forall i | 0 <= i < p ensures a[i] != Doc(2 * p) && b[i] != Doc(2 * p) {
      assert |a[i]| < 2 * p && |b[i]| < 2 * p;
    }
  }

  /** A document from an unshared place of a ranking does not beat the missed one. */
  lemma OwnPlacesScoreLow(k: nat, p: nat, wa: real, wb: real, i: nat)
    requires 1 <= k <= p && wa > 0.0 && wb > 0.0 && k - 1 <= i < p
    requires p == PerIndex(k) && !Bound(wa, wb, k)
    ensures var a, b := Ranking(k, p, 0), Ranking(k, p, p);
      && Score2(a, b, wa, wb, a[i]) <= Score2(a, b, wa, wb, Doc(2 * p))
      && Score2(a, b, wa, wb, b[i]) <= Score2(a, b, wa, wb, Doc(2 * p))
  {
    var a, b := Ranking(k, p, 0), Ranking(k, p, p);
    RankingIsMissed(k, p);
    MissedScore(k, p, wa, wb);
    OneSided(a, wa, b, wb, i, k, p);
    OneSided(b, wb, a, wa, i, k, p);
    Score2Splits(a, b, wa, wb, a[i]);
    Score2Splits(a, b, wa, wb, b[i]);
  }

  lemma OneSided(a: seq<string>, wa: real, b: seq<string>, wb: real, i: nat, k: nat, p: nat)
    requires 1 <= k <= p && k - 1 <= i < p && wa > 0.0 && wb > 0.0
    requires (a == Ranking(k, p, 0) && b == Ranking(k, p, p)) || (a == Ranking(k, p, p) && b == Ranking(k, p, 0))
    requires p == PerIndex(k) && !Bound(wa, wb, k)
    ensures ListScore(a, wa, RRF_K, a[i]) + ListScore(b, wb, RRF_K, a[i]) <= (wa + wb) / (61 + p) as real
  {
    RankingIsMissed(k, p);
    ScoreAtRank(a, wa, RRF_K, i);
    forall j | 0 <= j <= p ensures b[j] != a[i] {
      assert |b[j]| != |a[i]|;
    }
    AbsentScoresZero(b, wb, RRF_K, a[i]);
    ContributionDeclines(wa, k - 1, i);
    BoundMeans(wa, wb, k);
    LighterContributesLess(wa, MaxReal(wa, wb), k - 1);
  }

  lemma LighterContributesLess(w: real, w': real, i: nat)
    requires w <= w'
    ensures Contribution(w, RRF_K, i) <= Contribution(w', RRF_K, i)
  {
    var q := (RRF_K + i + 1) as real;
    if w / q > w' / q {
      assert q * (w / q) > q * (w' / q);
    }
  }

  lemma MissedScore(k: nat, p: nat, wa: real, wb: real)
    requires 1 <= k <= p
    ensures Score2(Ranking(k, p, 0), Ranking(k, p, p), wa, wb, Doc(2 * p)) == (wa + wb) / (61 + p) as real
  {
    var a, b := Ranking(k, p, 0), Ranking(k, p, p);
    RankingIsMissed(k, p);
    Score2Splits(a, b, wa, wb, Doc(2 * p));
    ScoreAtRank(a, wa, RRF_K, p);
    ScoreAtRank(b, wb, RRF_K, p);
  }

  /** Without the bound there are rankings whose missed document has fewer than k others above it. */
  lemma BoundIsNeeded(wa: real, wb: real, k: nat)
    requires wa > 0.0 && wb > 0.0 && k >= 1 && !Bound(wa, wb, k)
    ensures var p := PerIndex(k); var a, b := Ranking(k, p, 0), Ranking(k, p, p);
      Missed(a, b, p, Doc(2 * p)) && |Above(a, b, wa, wb, Doc(2 * p))| < k
  {
    var p := PerIndex(k);
    var a, b, x := Ranking(k, p, 0), Ranking(k, p, p), Doc(2 * p);
    RankingIsMissed(k, p);
    var shared := a[..k - 1];
    forall d | d in Above(a, b, wa, wb, x) ensures d in shared {
      var i: nat :| i <= p && (a[i] == d || b[i] == d);
      if i < k - 1 {
        assert shared[i] == a[i] && a[i] == b[i];
      } else if i < p {
        OwnPlacesScoreLow(k, p, wa, wb, i);
      }
    }
    Sql.Subset(Above(a, b, wa, wb, x), set d | d in shared);
    Sql.DistinctCount(shared);
  }

  /** The exact condition: the over-fetch suffices for all rankings if and only if the bound holds. */
  lemma OverFetchSufficesIff(wa: real, wb: real, k: nat)
    requires wa > 0.0 && wb > 0.0 && k >= 1
    ensures Suffices(wa, wb, k) <==> Bound(wa, wb, k)
  {
    if Bound(wa, wb, k) {
      forall a: seq<string>, b: seq<string>, x: string | Missed(a, b, PerIndex(k), x)
        ensures |Above(a, b, wa, wb, x)| >= k
      {
        BoundSuffices(a, b, wa, wb, k, x);
      }
    } else {
      BoundIsNeeded(wa, wb, k);
    }
  }

  /** With the default weights the over-fetch suffices exactly from K = 15 on; at the default K = 10
      it can drop a document of the ten best. */
  lemma DefaultWeightsNeedFifteen(k: nat)
    requires k >= 1
    ensures Suffices(DEFAULT_WEIGHTS.semantic, DEFAULT_WEIGHTS.keyword, k) <==> k >= 15
  {
    OverFetchSufficesIff(DEFAULT_WEIGHTS.semantic, DEFAULT_WEIGHTS.keyword, k);
  }

  /** Under the bound each of the K best documents of the full fusion was fetched by some index. */
  lemma TopKAreFetched(a: seq<string>, b: seq<string>, wa: real, wb: real, k: nat, n: nat)
    requires DuplicateFree(a) && DuplicateFree(b) && wa > 0.0 && wb > 0.0 && k >= 1 && Bound(wa, wb, k)
    requires n < k && n < |Fused([a, b], [wa, wb], RRF_K)|
    ensures var x := Fused([a, b], [wa, wb], RRF_K)[n].0;
      (exists i :: 0 <= i < |a| && i < PerIndex(k) && a[i] == x) || (exists i :: 0 <= i < |b| && i < PerIndex(k) && b[i] == x)
  {
    var r := Fused([a, b], [wa, wb], RRF_K);
    var x := r[n].0;
    FusedMembers([a, b], [wa, wb], RRF_K, r[n]);
    assert r[n] in r;
    assert x in a || x in b by {
      var l :| 0 <= l < 2 && x in [a, b][l];
    }
    if Missed(a, b, PerIndex(k), x) {
      BoundSuffices(a, b, wa, wb, k, x);
      AboveComesFirst(a, b, wa, wb, n);
      var earlier := seq(n, i requires 0 <= i < n => r[i].0);
      forall d | d in Above(a, b, wa, wb, x) ensures d in earlier {
        var i :| 0 <= i < n && r[i].0 == d;
        assert earlier[i] == d;
      }
      Sql.Subset(Above(a, b, wa, wb, x), set d | d in earlier);
      SetIsNoLarger(earlier);
      assert false;
    }
  }

  lemma {:induction false} SetIsNoLarger(s: seq<string>)
    ensures |set x | x in s| <= |s|
  {
    if s != [] {
      SetIsNoLarger(s[1..]);
      assert (set x | x in s) == {s[0]} + set x | x in s[1..];
    }
  }

  lemma AboveComesFirst(a: seq<string>, b: seq<string>, wa: real, wb: real, n: nat)
    requires n < |Fused([a, b], [wa, wb], RRF_K)|
    ensures var r := Fused([a, b], [wa, wb], RRF_K);
      forall d :: d in Above(a, b, wa, wb, r[n].0) ==> exists i :: 0 <= i < n && r[i].0 == d
  {
    var lists, ws := [a, b], [wa, wb];
    var r := Fused(lists, ws, RRF_K);
    FusedMembers(lists, ws, RRF_K, r[n]);
    assert r[n] in r;
    forall d | d in Above(a, b, wa, wb, r[n].0) ensures exists i :: 0 <= i < n && r[i].0 == d {
      assert Occurs(lists, d) by { assert d in lists[0] || d in lists[1]; }
      FusedOrder(lists, ws, RRF_K, d, r[n].0);
      var i, j :| 0 <= i < j < |r| && r[i] == Entry(lists, ws, RRF_K, d) && r[j] == r[n];
      assert j == n;
    }
  }
}
