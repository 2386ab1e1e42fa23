/** When the K items returned are the K best: exactly when no fetched place of the lighter ranking
    lets the heavier one's document K + 1 past its document K. */
module ReturnedExactly {
  import opened Fusion
  import opened FusedPlaces
  import opened Planner
  import opened OverFetch
  import opened Retrieval
  import opened ReturnedBest
  import Sql

  // ---------------------------------------------------------------- steps of a ranking

  lemma CommonDenominator(w: real, x: real, y: real)
    requires x > 0.0 && y == x + 1.0
    ensures x * y > 0.0 && w / x - w / y == w / (x * y)
  {
    var u, v := w / x, w / y;
    assert u * x == w && v * y == w;
    assert (u - v) * (x * y) == (u * x) * y - (v * y) * x == w * y - w * x == w;
  }

  lemma StepIsQuotient(w: real, k: nat)
    requires k >= 1
    ensures Step(w, k) == w / ((60 + k) * (61 + k)) as real
  {
    CommonDenominator(w, (60 + k) as real, (61 + k) as real);
    assert ((60 + k) * (61 + k)) as real == (60 + k) as real * (61 + k) as real;
  }

  lemma ProductsGrow(k: nat, n: nat)
    requires k <= n
    ensures 0 < (60 + k) * (61 + k) <= (60 + n) * (61 + n)
  {
    assert (60 + n) * (61 + n) == (60 + k) * (61 + k) + (n - k) * (121 + k + n);
  }

  lemma ProductsCompare(w: real, w': real, x: real, y: real)
    requires w >= w' > 0.0 && 0.0 < x <= y
    ensures w * y >= w' * x
  {
    assert w * y >= w' * y && w' * y >= w' * x;
  }

  /** Steps get smaller down the ranking and with the weight. */
  lemma StepDeclines(w: real, w': real, k: nat, n: nat)
    requires w >= w' > 0.0 && 1 <= k <= n
    ensures Step(w, k) >= Step(w', n) > 0.0
  {
    var x, y := ((60 + k) * (61 + k)) as real, ((60 + n) * (61 + n)) as real;
    ProductsGrow(k, n);
    StepIsQuotient(w, k);
    StepIsQuotient(w', n);
    ProductsCompare(w, w', x, y);
    QuotientBelow(w, x, w', y);
    QuotientBelow(0.0, y, w', y);
  }

  lemma StepIsStrictlyLess(w: real, w': real, k: nat, n: nat)
    requires w >= w' > 0.0 && 1 <= k < n
    ensures Step(w, k) > Step(w', n)
  {
    StepDeclines(w, w', k + 1, n);
    var x, y := ((60 + k) * (61 + k)) as real, ((61 + k) * (62 + k)) as real;
    assert (61 + k) * (62 + k) == (60 + k) * (61 + k) + 2 * (61 + k);
    StepIsQuotient(w, k);
    StepIsQuotient(w, k + 1);
    assert w * y > w * x;
    QuotientBelow(w, y, w, x);
  }

  lemma HeavyIsHeavier(h: real, l: real, k: nat)
    requires h > 0.0 && l > 0.0 && k >= 1 && TwoPlacesOutweigh(h, l, k)
    ensures h > l && Contribution(l, RRF_K, 0) < Contribution(h, RRF_K, k - 1)
  {
    ContributionDeclines(h, k + 1, k + 1);
    ContributionDeclines(h, 0, k - 1);
    QuotientBelow(l, 61.0, h, 61.0);
  }

  /** If none overtakes, a lost light contribution is less than a heavy place. */
  lemma LostIsLess(h: real, l: real, k: nat, first: bool)
    requires h >= l > 0.0 && k >= 1 && NoneOvertakes(h, l, k, first)
    ensures Contribution(l, RRF_K, PerIndex(k)) < Step(h, k)
  {
    var p := PerIndex(k);
    StepIsStrictlyLess(h, l, k, p);
    HigherRankContributesMore(l, RRF_K, p - 1, p);
    assert !Overtakes(h, l, k, p - 1, first);
  }

  lemma ListScoreIsAtMostFirst(list: seq<string>, w: real, x: string, from: nat)
    requires DuplicateFree(list) && w > 0.0
    requires forall i :: 0 <= i < |list| && i < from ==> list[i] != x
    ensures 0.0 <= ListScore(list, w, RRF_K, x) <= Contribution(w, RRF_K, from)
  {
    MissedScoresLow(list, w, from, x);
  }

  // ---------------------------------------------------------------- who is beaten for certain

  /** The first k - 1 heavy documents beat everything behind the k-th place, and the k-th beats
      everything behind the next one. */
  lemma HeavyTopBeats(heavy: seq<string>, light: seq<string>, h: real, l: real, k: nat, i: nat, y: string)
    requires DuplicateFree(heavy) && DuplicateFree(light) && h > 0.0 && l > 0.0 && k >= 1 && TwoPlacesOutweigh(h, l, k)
    requires i < k && i < |heavy|
    requires forall j :: 0 <= j < |heavy| && j < (if i == k - 1 then k + 1 else k) ==> heavy[j] != y
    ensures Total(heavy, light, h, l, heavy[i]) >= Contribution(h, RRF_K, i)
    ensures Total(heavy, light, h, l, heavy[i]) > Total(heavy, light, h, l, y)
  {
    ScoreAtRank(heavy, h, RRF_K, i);
    ListScoreIsNotNegative(light, l, RRF_K, heavy[i]);
    ListScoreIsAtMostFirst(heavy, h, y, if i == k - 1 then k + 1 else k);
    ListScoreIsAtMostFirst(light, l, y, 0);
    if i < k - 1 {
      ContributionDeclines(h, i, k - 2);
      StepDeclines(h, h, k - 1, k);
      StepDeclines(h, h, k, k + 1);
    }
  }

  lemma StrictlyMoreBeats(heavy: seq<string>, light: seq<string>, h: real, l: real, first: bool, y: string, x: string)
    requires Total(heavy, light, h, l, y) > Total(heavy, light, h, l, x)
    ensures Beats(heavy, light, h, l, first, y, x) && !Beats(heavy, light, h, l, first, x, y)
  {
    TotalIsScore(heavy, light, h, l, first, x);
    TotalIsScore(heavy, light, h, l, first, y);
  }

  // ---------------------------------------------------------------- a short heavy ranking

  /** With at most k documents in the heavy ranking, all of them are best. */
  lemma ShortHeavyIsBest(heavy: seq<string>, light: seq<string>, h: real, l: real, first: bool, k: nat, x: string)
    requires DuplicateFree(heavy) && DuplicateFree(light) && h > 0.0 && l > 0.0 && k >= 1 && TwoPlacesOutweigh(h, l, k)
    requires |heavy| <= k && x in heavy
    ensures Best(heavy, light, h, l, first, k, x)
  {
    var i :| 0 <= i < |heavy| && heavy[i] == x;
    Sql.DistinctCount(heavy);
    var rivals := (set y | y in heavy) - {x};
    forall y | (y in heavy || y in light) && y != x && Beats(heavy, light, h, l, first, y, x) ensures y in rivals {
      if y !in heavy {
        HeavyTopBeats(heavy, light, h, l, k, i, y);
        StrictlyMoreBeats(heavy, light, h, l, first, x, y);
      }
    }
    LetIn(heavy, light, h, l, first, k, x, rivals);
  }

  /** The documents ahead of place j of the light ranking. */
  function Ahead(heavy: seq<string>, light: seq<string>, j: nat): set<string>
    requires j <= |light|
  {
    (set y | y in heavy) + set y | y in light[..j]
  }

  lemma AheadBeat(heavy: seq<string>, light: seq<string>, h: real, l: real, first: bool, k: nat, j: nat, y: string)
    requires DuplicateFree(heavy) && DuplicateFree(light) && h > 0.0 && l > 0.0 && k >= 1 && TwoPlacesOutweigh(h, l, k)
    requires |heavy| <= k && j < |light| && light[j] !in heavy && (y in heavy || y in light) && y != light[j]
    ensures Beats(heavy, light, h, l, first, y, light[j]) <==> y in Ahead(heavy, light, j)
  {
    if y in heavy {
      var i :| 0 <= i < |heavy| && heavy[i] == y;
      HeavyTopBeats(heavy, light, h, l, k, i, light[j]);
      StrictlyMoreBeats(heavy, light, h, l, first, y, light[j]);
    } else {
      var i :| 0 <= i < |light| && light[i] == y;
      AbsentScoresZero(heavy, h, RRF_K, y);
      AbsentScoresZero(heavy, h, RRF_K, light[j]);
      ScoreAtRank(light, l, RRF_K, i);
      ScoreAtRank(light, l, RRF_K, j);
      if i < j {
        HigherRankContributesMore(l, RRF_K, i, j);
        assert light[..j][i] == y;
        StrictlyMoreBeats(heavy, light, h, l, first, y, light[j]);
      } else {
        HigherRankContributesMore(l, RRF_K, j, i);
        assert forall m :: 0 <= m < j ==> light[..j][m] == light[m] && light[m] != y;
        StrictlyMoreBeats(heavy, light, h, l, first, light[j], y);
      }
    }
  }

  lemma NotItself(light: seq<string>, j: nat)
    requires DuplicateFree(light) && j < |light|
    ensures light[j] !in light[..j]
  {
  }

  /** Behind a short heavy ranking the light ranking's own documents follow in order. */
  lemma LightFollows(heavy: seq<string>, light: seq<string>, h: real, l: real, first: bool, k: nat, j: nat)
    requires DuplicateFree(heavy) && DuplicateFree(light) && h > 0.0 && l > 0.0 && k >= 1 && TwoPlacesOutweigh(h, l, k)
    requires |heavy| <= k && j < |light| && light[j] !in heavy
    ensures Best(heavy, light, h, l, first, k, light[j]) <==> |Ahead(heavy, light, j)| < k
  {
    var ahead, x := Ahead(heavy, light, j), light[j];
    NotItself(light, j);
    forall y | (y in heavy || y in light) && y != x ensures Beats(heavy, light, h, l, first, y, x) <==> y in ahead {
      AheadBeat(heavy, light, h, l, first, k, j, y);
    }
    if |ahead| >= k {
      KeptOut(heavy, light, h, l, first, k, x, ahead);
    } else {
      LetIn(heavy, light, h, l, first, k, x, ahead);
    }
  }

  lemma FewAheadIsFetched(heavy: seq<string>, light: seq<string>, p: nat, j: nat)
    requires DuplicateFree(light) && j < |light| && |Ahead(heavy, light, j)| < p
    ensures j < |Trimmed(light, p)| && Trimmed(light, p)[j] == light[j]
    ensures Ahead(heavy, Trimmed(light, p), j) == Ahead(heavy, light, j)
  {
    Sql.DistinctCount(light[..j]);
    Sql.Subset((set y | y in light[..j]), Ahead(heavy, light, j));
    assert Trimmed(light, p)[..j] == light[..j];
  }

  lemma ShortHeavyKeepsBest(heavy: seq<string>, light: seq<string>, h: real, l: real, first: bool, k: nat, p: nat, x: string)
    requires DuplicateFree(heavy) && DuplicateFree(light) && h > 0.0 && l > 0.0 && k >= 1 && TwoPlacesOutweigh(h, l, k)
    requires |heavy| <= k <= p && Best(heavy, light, h, l, first, k, x)
    ensures Best(heavy, Trimmed(light, p), h, l, first, k, x)
  {
    var light', i := Trimmed(light, p), Ordered(heavy, light, h, l, first);
    TopIsAMember(i.a, i.b, i.wa, i.wb, k, x);
    TrimmedStaysDuplicateFree(light, p);
    if x in heavy {
      ShortHeavyIsBest(heavy, light', h, l, first, k, x);
    } else {
      var j :| 0 <= j < |light| && light[j] == x;
      LightFollows(heavy, light, h, l, first, k, j);
      FewAheadIsFetched(heavy, light, p, j);
      LightFollows(heavy, light', h, l, first, k, j);
    }
  }

  lemma TrimmedStaysDuplicateFree(list: seq<string>, p: nat)
    requires DuplicateFree(list)
    ensures DuplicateFree(Trimmed(list, p))
  {
  }

  // ---------------------------------------------------------------- a long heavy ranking

  /** The documents at places k and k + 1 of the heavy ranking compete for the last place. */
  ghost function Winner(heavy: seq<string>, light: seq<string>, h: real, l: real, first: bool, k: nat): string
    requires 1 <= k < |heavy|
  {
    if Beats(heavy, light, h, l, first, heavy[k], heavy[k - 1]) then heavy[k] else heavy[k - 1]
  }

  /** The first n documents of a ranking. */
  function Front(list: seq<string>, n: nat): set<string>
    requires n <= |list|
  {
    set y | y in list[..n]
  }

  lemma FrontIndex(list: seq<string>, n: nat, y: string) returns (i: nat)
    requires n <= |list| && y in Front(list, n)
    ensures i < n && list[i] == y
  {
    i :| 0 <= i < n && list[..n][i] == y;
  }

  lemma FrontHas(list: seq<string>, n: nat, i: nat)
    requires DuplicateFree(list) && n <= |list| && i < |list|
    ensures list[i] in Front(list, n) <==> i < n
  {
    if i < n { assert list[..n][i] == list[i]; }
    if list[i] in Front(list, n) { var j := FrontIndex(list, n, list[i]); }
  }

  lemma CertainCount(heavy: seq<string>, n: nat)
    requires DuplicateFree(heavy) && n <= |heavy|
    ensures |Front(heavy, n)| == n
    ensures forall i :: 0 <= i < |heavy| ==> (heavy[i] in Front(heavy, n) <==> i < n)
  {
    Sql.DistinctCount(heavy[..n]);
    forall i | 0 <= i < |heavy| ensures heavy[i] in Front(heavy, n) <==> i < n { FrontHas(heavy, n, i); }
  }

  /** The first k - 1 heavy documents are best. */
  lemma CertainIsBest(heavy: seq<string>, light: seq<string>, h: real, l: real, first: bool, k: nat, i: nat)
    requires DuplicateFree(heavy) && DuplicateFree(light) && h > 0.0 && l > 0.0 && k >= 1 && TwoPlacesOutweigh(h, l, k)
    requires i + 1 < k < |heavy|
    ensures Best(heavy, light, h, l, first, k, heavy[i])
  {
    CertainCount(heavy, k);
    var rivals := Front(heavy, k) - {heavy[i]};
    forall y | (y in heavy || y in light) && y != heavy[i] && Beats(heavy, light, h, l, first, y, heavy[i])
      ensures y in rivals
    {
      if y !in Front(heavy, k) {
        HeavyTopBeats(heavy, light, h, l, k, i, y);
        StrictlyMoreBeats(heavy, light, h, l, first, heavy[i], y);
      }
    }
    LetIn(heavy, light, h, l, first, k, heavy[i], rivals);
  }

  /** Everything behind place k + 1 of the heavy ranking is kept out. */
  lemma OutsidersAreOut(heavy: seq<string>, light: seq<string>, h: real, l: real, first: bool, k: nat, x: string)
    requires DuplicateFree(heavy) && DuplicateFree(light) && h > 0.0 && l > 0.0 && k >= 1 && TwoPlacesOutweigh(h, l, k)
    requires k < |heavy| && x !in Front(heavy, k + 1)
    ensures !Best(heavy, light, h, l, first, k, x)
  {
    CertainCount(heavy, k);
    CertainCount(heavy, k + 1);
    forall y | y in Front(heavy, k) ensures y in heavy && y != x && Beats(heavy, light, h, l, first, y, x) {
      var i := FrontIndex(heavy, k, y);
      HeavyTopBeats(heavy, light, h, l, k, i, x);
      StrictlyMoreBeats(heavy, light, h, l, first, y, x);
    }
    KeptOut(heavy, light, h, l, first, k, x, Front(heavy, k));
  }

  /** The first k - 1 heavy documents beat both competitors' loser. */
  lemma CertainBeatLoser(heavy: seq<string>, light: seq<string>, h: real, l: real, first: bool, k: nat, i: nat, x: string)
    requires DuplicateFree(heavy) && DuplicateFree(light) && h > 0.0 && l > 0.0 && k >= 1 && TwoPlacesOutweigh(h, l, k)
    requires i + 1 < k < |heavy| && (x == heavy[k] || x == heavy[k - 1])
    requires x != Winner(heavy, light, h, l, first, k)
    ensures Beats(heavy, light, h, l, first, heavy[i], x)
  {
    HeavyTopBeats(heavy, light, h, l, k, i, heavy[k]);
    TotalIsScore(heavy, light, h, l, first, heavy[k]);
    TotalIsScore(heavy, light, h, l, first, heavy[k - 1]);
    StrictlyMoreBeats(heavy, light, h, l, first, heavy[i], x);
  }

  lemma PlacesDiffer(heavy: seq<string>, light: seq<string>, first: bool, x: string, y: string)
    requires (x in heavy || x in light) && (y in heavy || y in light) && x != y
    ensures PlaceIn(heavy, light, first, x) != PlaceIn(heavy, light, first, y)
  {
  }

  lemma WinnerBeats(heavy: seq<string>, light: seq<string>, h: real, l: real, first: bool, k: nat, x: string)
    requires DuplicateFree(heavy) && DuplicateFree(light) && 1 <= k < |heavy|
    requires (x == heavy[k] || x == heavy[k - 1]) && x != Winner(heavy, light, h, l, first, k)
    ensures Beats(heavy, light, h, l, first, Winner(heavy, light, h, l, first, k), x)
    ensures !Beats(heavy, light, h, l, first, x, Winner(heavy, light, h, l, first, k))
  {
    BeatsIff(heavy, light, h, l, first, heavy[k], heavy[k - 1]);
    BeatsIff(heavy, light, h, l, first, heavy[k - 1], heavy[k]);
    PlacesDiffer(heavy, light, first, heavy[k], heavy[k - 1]);
  }

  lemma LoserIsOut(heavy: seq<string>, light: seq<string>, h: real, l: real, first: bool, k: nat, x: string)
    requires DuplicateFree(heavy) && DuplicateFree(light) && h > 0.0 && l > 0.0 && k >= 1 && TwoPlacesOutweigh(h, l, k)
    requires k < |heavy| && (x == heavy[k] || x == heavy[k - 1]) && x != Winner(heavy, light, h, l, first, k)
    ensures !Best(heavy, light, h, l, first, k, x)
  {
    CertainCount(heavy, k - 1);
    var winner := Winner(heavy, light, h, l, first, k);
    var better := Front(heavy, k - 1) + {winner};
    WinnerBeats(heavy, light, h, l, first, k, x);
    forall y | y in better ensures y in heavy && y != x && Beats(heavy, light, h, l, first, y, x) {
      if y != winner {
        var i := FrontIndex(heavy, k - 1, y);
        CertainBeatLoser(heavy, light, h, l, first, k, i, x);
      }
    }
    KeptOut(heavy, light, h, l, first, k, x, better);
  }

  /** Nothing behind place k + 1 beats the winner. */
  lemma OutsidersLose(heavy: seq<string>, light: seq<string>, h: real, l: real, first: bool, k: nat, y: string)
    requires DuplicateFree(heavy) && DuplicateFree(light) && h > 0.0 && l > 0.0 && k >= 1 && TwoPlacesOutweigh(h, l, k)
    requires k < |heavy| && y !in Front(heavy, k + 1)
    ensures !Beats(heavy, light, h, l, first, y, Winner(heavy, light, h, l, first, k))
  {
    CertainCount(heavy, k + 1);
    HeavyTopBeats(heavy, light, h, l, k, k - 1, y);
    TotalIsScore(heavy, light, h, l, first, heavy[k]);
    TotalIsScore(heavy, light, h, l, first, heavy[k - 1]);
    StrictlyMoreBeats(heavy, light, h, l, first, Winner(heavy, light, h, l, first, k), y);
  }

  lemma WinnerIsBest(heavy: seq<string>, light: seq<string>, h: real, l: real, first: bool, k: nat)
    requires DuplicateFree(heavy) && DuplicateFree(light) && h > 0.0 && l > 0.0 && k >= 1 && TwoPlacesOutweigh(h, l, k)
    requires k < |heavy|
    ensures Best(heavy, light, h, l, first, k, Winner(heavy, light, h, l, first, k))
  {
    var x := Winner(heavy, light, h, l, first, k);
    CertainCount(heavy, k - 1);
    CertainCount(heavy, k + 1);
    WinnerBeats(heavy, light, h, l, first, k, if x == heavy[k] then heavy[k - 1] else heavy[k]);
    forall y | (y in heavy || y in light) && y != x && Beats(heavy, light, h, l, first, y, x)
      ensures y in Front(heavy, k - 1)
    {
      if y !in Front(heavy, k + 1) {
        OutsidersLose(heavy, light, h, l, first, k, y);
      } else {
        var i := FrontIndex(heavy, k + 1, y);
        assert y == heavy[i] && i != k - 1 && i != k;
      }
    }
    LetIn(heavy, light, h, l, first, k, x, Front(heavy, k - 1));
  }

  lemma NotAmong(heavy: seq<string>, n: nat, x: string)
    requires n <= |heavy| && forall i :: 0 <= i < n ==> heavy[i] != x
    ensures x !in Front(heavy, n)
  {
    if x in Front(heavy, n) { var i := FrontIndex(heavy, n, x); }
  }

  lemma LongHeavyIsBestIff(heavy: seq<string>, light: seq<string>, h: real, l: real, first: bool, k: nat, x: string)
    requires DuplicateFree(heavy) && DuplicateFree(light) && h > 0.0 && l > 0.0 && k >= 1 && TwoPlacesOutweigh(h, l, k)
    requires k < |heavy|
    ensures Best(heavy, light, h, l, first, k, x) <==>
      x in Front(heavy, k - 1) || x == Winner(heavy, light, h, l, first, k)
  {
    WinnerIsBest(heavy, light, h, l, first, k);
    CertainCount(heavy, k - 1);
    if i :| 0 <= i < k + 1 && heavy[i] == x {
      if i < k - 1 {
        CertainIsBest(heavy, light, h, l, first, k, i);
      } else if x != Winner(heavy, light, h, l, first, k) {
        LoserIsOut(heavy, light, h, l, first, k, x);
      }
    } else {
      NotAmong(heavy, k - 1, x);
      NotAmong(heavy, k + 1, x);
      OutsidersAreOut(heavy, light, h, l, first, k, x);
    }
  }

  // ---------------------------------------------------------------- truncation keeps the winner

  /** Documents that were fetched wherever they are listed keep their light scores and places. */
  lemma FetchedKeepPlaces(heavy: seq<string>, heavy': seq<string>, light: seq<string>, p: nat, first: bool, k: nat)
    requires DuplicateFree(heavy) && DuplicateFree(heavy') && DuplicateFree(light)
    requires 1 <= k < |heavy| && k < |heavy'| && heavy'[k] == heavy[k] && heavy'[k - 1] == heavy[k - 1]
    requires !Unfetched(light, p, heavy[k]) && !Unfetched(light, p, heavy[k - 1])
    ensures PlaceIn(heavy, light, first, heavy[k]) < PlaceIn(heavy, light, first, heavy[k - 1])
       <==> PlaceIn(heavy', Trimmed(light, p), first, heavy[k]) < PlaceIn(heavy', Trimmed(light, p), first, heavy[k - 1])
  {
    IndexIsUnique(heavy, k);
    IndexIsUnique(heavy, k - 1);
    IndexIsUnique(heavy', k);
    IndexIsUnique(heavy', k - 1);
    TrimmedIndex(light, p, heavy[k]);
    TrimmedIndex(light, p, heavy[k - 1]);
  }

  lemma TrimmedIndex(light: seq<string>, p: nat, x: string)
    requires DuplicateFree(light)
    ensures x in Trimmed(light, p) ==> x in light && IndexOf(Trimmed(light, p), x) == IndexOf(light, x)
    ensures x in light && !Unfetched(light, p, x) ==> x in Trimmed(light, p)
  {
    if x in Trimmed(light, p) {
      var i := IndexOf(Trimmed(light, p), x);
      assert light[i] == x;
      IndexIsUnique(light, i);
    }
  }

  /** What truncation leaves of the two competitors' totals. */
  lemma CompetitorTotals(heavy: seq<string>, light: seq<string>, h: real, l: real, k: nat, i: nat)
    requires DuplicateFree(heavy) && i < |heavy|
    ensures Total(heavy, light, h, l, heavy[i]) == Contribution(h, RRF_K, i) + ListScore(light, l, RRF_K, heavy[i])
  {
    ScoreAtRank(heavy, h, RRF_K, i);
  }

  lemma TrimmedTakes(light: seq<string>, p: nat, i: nat)
    requires i < |light|
    ensures i < p ==> light[i] in Trimmed(light, p)
  {
    if i < p { assert Trimmed(light, p)[i] == light[i]; }
  }

  lemma UnfetchedIsLate(light: seq<string>, l: real, p: nat, x: string)
    requires DuplicateFree(light) && l > 0.0 && Unfetched(light, p, x)
    ensures ListScore(light, l, RRF_K, x) <= Contribution(l, RRF_K, p)
    ensures IndexOf(light, x) >= p
  {
    var i := IndexOf(light, x);
    TrimmedTakes(light, p, i);
    ScoreAtRank(light, l, RRF_K, i);
    ContributionDeclines(l, p, i);
  }

  /** With both competitors' light contributions intact nothing changes. */
  lemma IntactKeepsWinner(heavy: seq<string>, light: seq<string>, h: real, l: real, first: bool, k: nat, p: nat)
    requires DuplicateFree(heavy) && DuplicateFree(light) && l > 0.0 && 1 <= k < |heavy| && k < p
    requires !Unfetched(light, p, heavy[k]) && !Unfetched(light, p, heavy[k - 1])
    ensures Beats(heavy, light, h, l, first, heavy[k], heavy[k - 1])
       <==> Beats(Trimmed(heavy, p), Trimmed(light, p), h, l, first, heavy[k], heavy[k - 1])
  {
    var heavy', light' := Trimmed(heavy, p), Trimmed(light, p);
    TrimmedStaysDuplicateFree(heavy, p);
    TrimmedStaysDuplicateFree(light, p);
    BeatsIff(heavy, light, h, l, first, heavy[k], heavy[k - 1]);
    BeatsIff(heavy', light', h, l, first, heavy[k], heavy[k - 1]);
    CompetitorTotals(heavy, light, h, l, k, k);
    CompetitorTotals(heavy, light, h, l, k, k - 1);
    CompetitorTotals(heavy', light', h, l, k, k);
    CompetitorTotals(heavy', light', h, l, k, k - 1);
    TrimmedScore(light, l, p, heavy[k]);
    TrimmedScore(light, l, p, heavy[k - 1]);
    FetchedKeepPlaces(heavy, heavy', light, p, first, k);
  }

  /** If the lower competitor's contribution is cut off it loses in both fusions. */
  lemma LowerCutOffLoses(heavy: seq<string>, light: seq<string>, h: real, l: real, first: bool, k: nat, p: nat)
    requires DuplicateFree(heavy) && DuplicateFree(light) && h >= l > 0.0 && 1 <= k < |heavy| && k < p == PerIndex(k)
    requires NoneOvertakes(h, l, k, first) && Unfetched(light, p, heavy[k])
    ensures !Beats(heavy, light, h, l, first, heavy[k], heavy[k - 1])
    ensures !Beats(Trimmed(heavy, p), Trimmed(light, p), h, l, first, heavy[k], heavy[k - 1])
  {
    var heavy', light' := Trimmed(heavy, p), Trimmed(light, p);
    TrimmedStaysDuplicateFree(heavy, p);
    CompetitorTotals(heavy, light, h, l, k, k);
    CompetitorTotals(heavy, light, h, l, k, k - 1);
    CompetitorTotals(heavy', light', h, l, k, k);
    CompetitorTotals(heavy', light', h, l, k, k - 1);
    LostIsLess(h, l, k, first);
    UnfetchedIsLate(light, l, p, heavy[k]);
    TrimmedScore(light, l, p, heavy[k]);
    ListScoreIsNotNegative(light, l, RRF_K, heavy[k - 1]);
    ListScoreIsNotNegative(light', l, RRF_K, heavy[k - 1]);
    StepDeclines(h, h, k, k);
    StrictlyMoreBeats(heavy, light, h, l, first, heavy[k - 1], heavy[k]);
    StrictlyMoreBeats(heavy', light', h, l, first, heavy[k - 1], heavy[k]);
  }

  /** The totals of the competitors when the upper one's light contribution is cut off. */
  lemma UpperCutOffTotals(heavy: seq<string>, light: seq<string>, h: real, l: real, k: nat, p: nat)
    requires DuplicateFree(heavy) && DuplicateFree(light) && l > 0.0 && 1 <= k < |heavy| && k < p
    requires Unfetched(light, p, heavy[k - 1]) && !Unfetched(light, p, heavy[k])
    ensures var heavy', light' := Trimmed(heavy, p), Trimmed(light, p); var gain := ListScore(light, l, RRF_K, heavy[k]);
      && Total(heavy, light, h, l, heavy[k]) == Total(heavy', light', h, l, heavy[k]) == Contribution(h, RRF_K, k) + gain
      && Total(heavy', light', h, l, heavy[k - 1]) == Contribution(h, RRF_K, k - 1)
      && Contribution(h, RRF_K, k - 1) < Total(heavy, light, h, l, heavy[k - 1])
           <= Contribution(h, RRF_K, k - 1) + Contribution(l, RRF_K, p)
  {
    TrimmedStaysDuplicateFree(heavy, p);
    CompetitorTotals(heavy, light, h, l, k, k);
    CompetitorTotals(heavy, light, h, l, k, k - 1);
    CompetitorTotals(Trimmed(heavy, p), Trimmed(light, p), h, l, k, k);
    CompetitorTotals(Trimmed(heavy, p), Trimmed(light, p), h, l, k, k - 1);
    TrimmedScore(light, l, p, heavy[k]);
    TrimmedScore(light, l, p, heavy[k - 1]);
    UnfetchedIsLate(light, l, p, heavy[k - 1]);
  }

  /** What the lower competitor gains is the contribution of a fetched place, if anything. */
  lemma LowerGain(light: seq<string>, h: real, l: real, first: bool, k: nat, x: string)
    requires DuplicateFree(light) && k >= 1 && NoneOvertakes(h, l, k, first) && !Unfetched(light, PerIndex(k), x)
    ensures var gain, lost := ListScore(light, l, RRF_K, x), Contribution(l, RRF_K, PerIndex(k));
      if x !in light then gain == 0.0
      else if first then gain <= Step(h, k) || gain > Step(h, k) + lost
      else gain < Step(h, k) || gain >= Step(h, k) + lost
  {
    if x in light {
      TrimmedIndex(light, PerIndex(k), x);
      var t := IndexOf(Trimmed(light, PerIndex(k)), x);
      ScoreAtRank(light, l, RRF_K, t);
      assert !Overtakes(h, l, k, t, first);
    } else {
      AbsentScoresZero(light, l, RRF_K, x);
    }
  }

  /** If the upper competitor's contribution is cut off the lower one passes it only if it did before. */
  lemma UpperCutOffKeepsWinner(heavy: seq<string>, light: seq<string>, h: real, l: real, first: bool, k: nat, p: nat)
    requires DuplicateFree(heavy) && DuplicateFree(light) && h >= l > 0.0 && 1 <= k < |heavy| && k < p == PerIndex(k)
    requires NoneOvertakes(h, l, k, first)
    requires Unfetched(light, p, heavy[k - 1]) && !Unfetched(light, p, heavy[k])
    ensures Beats(heavy, light, h, l, first, heavy[k], heavy[k - 1])
       <==> Beats(Trimmed(heavy, p), Trimmed(light, p), h, l, first, heavy[k], heavy[k - 1])
  {
    var heavy', light' := Trimmed(heavy, p), Trimmed(light, p);
    TrimmedStaysDuplicateFree(heavy, p);
    TrimmedStaysDuplicateFree(light, p);
    UpperCutOffTotals(heavy, light, h, l, k, p);
    LowerGain(light, h, l, first, k, heavy[k]);
    CompetitorPlaces(heavy, light, first, k, p);
    StepDeclines(h, h, k, k);
    BeatsIff(heavy, light, h, l, first, heavy[k], heavy[k - 1]);
    BeatsIff(heavy', light', h, l, first, heavy[k], heavy[k - 1]);
  }

  lemma CompetitorPlaces(heavy: seq<string>, light: seq<string>, first: bool, k: nat, p: nat)
    requires DuplicateFree(heavy) && DuplicateFree(light) && 1 <= k < |heavy| && k < p
    requires Unfetched(light, p, heavy[k - 1]) && !Unfetched(light, p, heavy[k])
    ensures var heavy', light' := Trimmed(heavy, p), Trimmed(light, p);
      && (first ==> PlaceIn(heavy, light, first, heavy[k - 1]) < PlaceIn(heavy, light, first, heavy[k]))
      && (first ==> PlaceIn(heavy', light', first, heavy[k - 1]) < PlaceIn(heavy', light', first, heavy[k]))
      && (!first && heavy[k] in light ==>
            PlaceIn(heavy, light, first, heavy[k]) < PlaceIn(heavy, light, first, heavy[k - 1]))
      && (!first && heavy[k] in light ==>
            PlaceIn(heavy', light', first, heavy[k]) < PlaceIn(heavy', light', first, heavy[k - 1]))
  {
    var heavy' := Trimmed(heavy, p);
    TrimmedStaysDuplicateFree(heavy, p);
    IndexIsUnique(heavy, k);
    IndexIsUnique(heavy, k - 1);
    IndexIsUnique(heavy', k);
    IndexIsUnique(heavy', k - 1);
    TrimmedIndex(light, p, heavy[k]);
    UnfetchedIsLate(light, 1.0, p, heavy[k - 1]);
  }

  lemma TruncationKeepsWinner(heavy: seq<string>, light: seq<string>, h: real, l: real, first: bool, k: nat, p: nat)
    requires DuplicateFree(heavy) && DuplicateFree(light) && h >= l > 0.0 && 1 <= k < |heavy| && k < p == PerIndex(k)
    requires NoneOvertakes(h, l, k, first)
    ensures Winner(Trimmed(heavy, p), Trimmed(light, p), h, l, first, k) == Winner(heavy, light, h, l, first, k)
  {
    if Unfetched(light, p, heavy[k]) {
      LowerCutOffLoses(heavy, light, h, l, first, k, p);
    } else if Unfetched(light, p, heavy[k - 1]) {
      UpperCutOffKeepsWinner(heavy, light, h, l, first, k, p);
    } else {
      IntactKeepsWinner(heavy, light, h, l, first, k, p);
    }
  }

  // ---------------------------------------------------------------- the exact condition

  lemma FrontStays(heavy: seq<string>, p: nat, n: nat)
    requires n <= |heavy| && n <= p
    ensures Front(Trimmed(heavy, p), n) == Front(heavy, n)
  {
    assert Trimmed(heavy, p)[..n] == heavy[..n];
  }

  lemma TruncationKeepsBest(heavy: seq<string>, light: seq<string>, h: real, l: real, first: bool, k: nat, x: string)
    requires DuplicateFree(heavy) && DuplicateFree(light) && h > 0.0 && l > 0.0 && k >= 1
    requires TwoPlacesOutweigh(h, l, k) && NoneOvertakes(h, l, k, first)
    requires Best(heavy, light, h, l, first, k, x)
    ensures Best(Trimmed(heavy, PerIndex(k)), Trimmed(light, PerIndex(k)), h, l, first, k, x)
  {
    var p := PerIndex(k);
    HeavyIsHeavier(h, l, k);
    TrimmedStaysDuplicateFree(heavy, p);
    TrimmedStaysDuplicateFree(light, p);
    if |heavy| <= k {
      ShortHeavyKeepsBest(heavy, light, h, l, first, k, p, x);
    } else {
      TruncationKeepsWinner(heavy, light, h, l, first, k, p);
      LongHeavyIsBestIff(heavy, light, h, l, first, k, x);
      LongHeavyIsBestIff(Trimmed(heavy, p), Trimmed(light, p), h, l, first, k, x);
      FrontStays(heavy, p, k - 1);
    }
  }

  /** If two heavy places outweigh the light ranking and none overtakes, the returned set is exact. */
  lemma NoneOvertakesIsExact(wa: real, wb: real, k: nat)
    requires wa > 0.0 && wb > 0.0 && k >= 1
    requires TwoPlacesOutweigh(MaxReal(wa, wb), MinReal(wa, wb), k)
    requires NoneOvertakes(MaxReal(wa, wb), MinReal(wa, wb), k, wa >= wb)
    ensures ReturnsTheBest(wa, wb, k)
  {
    var p, h, l := PerIndex(k), MaxReal(wa, wb), MinReal(wa, wb);
    forall a: seq<string>, b: seq<string>, x: string | DuplicateFree(a) && DuplicateFree(b) && InTop(a, b, wa, wb, k, x)
      ensures InTop(Trimmed(a, p), Trimmed(b, p), wa, wb, k, x)
    {
      if wa >= wb {
        assert Best(a, b, h, l, true, k, x);
        TruncationKeepsBest(a, b, h, l, true, k, x);
      } else {
        assert Best(b, a, h, l, false, k, x);
        TruncationKeepsBest(b, a, h, l, false, k, x);
      }
    }
  }

  /** Going down the light ranking from a place that gains more than a heavy place, some place
      overtakes, provided that the places lie close enough together. */
  lemma SomeOvertakes(h: real, l: real, k: nat, t: nat, first: bool) returns (u: nat)
    requires h >= l > 0.0 && k >= 1 && t < PerIndex(k)
    requires Contribution(l, RRF_K, t) > Step(h, k)
    requires (61 + t) * (62 + t) > 61 + PerIndex(k)
    ensures u < PerIndex(k) && Overtakes(h, l, k, u, first)
    decreases PerIndex(k) - t
  {
    var p := PerIndex(k);
    if t == p - 1 {
      StepIsStrictlyLess(h, l, k, p);
      u := t;
    } else if Contribution(l, RRF_K, t + 1) > Step(h, k) {
      assert (62 + t) * (63 + t) == (61 + t) * (62 + t) + 2 * (62 + t);
      u := SomeOvertakes(h, l, k, t + 1, first);
    } else {
      StepIsQuotient(l, t + 1);
      assert (60 + (t + 1)) * (61 + (t + 1)) == (61 + t) * (62 + t);
      QuotientBelow(l, ((61 + t) * (62 + t)) as real, l, (61 + p) as real);
      assert l * (61 + p) as real < l * ((61 + t) * (62 + t)) as real;
      u := t;
    }
  }

  /** If two heavy places do not outweigh the first light one, light place 60 still gains more than
      one heavy place. */
  lemma SixtiethGains(h: real, l: real, k: nat)
    requires h >= l > 0.0 && k >= 1 && !TwoPlacesOutweigh(h, l, k)
    ensures Contribution(l, RRF_K, 59) > Step(h, k)
  {
    StepIsQuotient(h, k);
    StepIsQuotient(h, k + 1);
    var x, y := ((60 + k) * (61 + k)) as real, ((61 + k) * (62 + k)) as real;
    SecondStepIsLarge(k);
    TwoQuotients(h, x, y);
    assert Step(h, k) + Step(h, k + 1) <= l / 61.0;
    assert l / 61.0 == (120.0 / 61.0) * (l / 120.0);
  }

  lemma SecondStepIsLarge(k: nat)
    ensures 59 * ((61 + k) * (62 + k)) < 61 * ((60 + k) * (61 + k))
  {
    assert 61 * ((60 + k) * (61 + k)) - 59 * ((61 + k) * (62 + k)) == (61 + k) * (2 + 2 * k);
    assert (61 + k) * (2 + 2 * k) > 0;
  }

  lemma TwoQuotients(h: real, x: real, y: real)
    requires h > 0.0 && x > 0.0 && y > 0.0 && 59.0 * y < 61.0 * x
    ensures h / x + h / y > (120.0 / 61.0) * (h / x)
  {
    var u := h / x;
    assert u * x == h;
    assert ((59.0 / 61.0) * u) * (61.0 * x) == 59.0 * h;
    assert (59.0 * h) / (61.0 * x) == (59.0 / 61.0) * u;
    assert (59.0 * h) * y < h * (61.0 * x);
    QuotientBelow(59.0 * h, 61.0 * x, h, y);
  }

  /** The exact condition. It covers every pair of weights for K up to 4819, and beyond that those
      where two heavy places outweigh the light ranking. */
  lemma ReturnsTheBestIff(wa: real, wb: real, k: nat)
    requires wa > 0.0 && wb > 0.0 && k >= 1
    requires 61 + PerIndex(k) < 120 * 121 || TwoPlacesOutweigh(MaxReal(wa, wb), MinReal(wa, wb), k)
    ensures ReturnsTheBest(wa, wb, k) <==> NoneOvertakes(MaxReal(wa, wb), MinReal(wa, wb), k, wa >= wb)
  {
    var h, l, first := MaxReal(wa, wb), MinReal(wa, wb), wa >= wb;
    if t: nat :| t < PerIndex(k) && Overtakes(h, l, k, t, first) {
      OvertakingDropsABest(wa, wb, k, t);
    } else if TwoPlacesOutweigh(h, l, k) {
      NoneOvertakesIsExact(wa, wb, k);
    } else {
      SixtiethGains(h, l, k);
      ContributionDeclines(l, if PerIndex(k) <= 59 then PerIndex(k) - 1 else 59, 59);
      var u := SomeOvertakes(h, l, k, if PerIndex(k) <= 59 then PerIndex(k) - 1 else 59, first);
    }
  }

  // ---------------------------------------------------------------- the condition in closed form

  lemma FirstPlaceGain(h: real, l: real, k: nat)
    requires h > 0.0 && l > 0.0 && k >= 1
    ensures Contribution(l, RRF_K, 0) > Step(h, k) <==> l * ((60 + k) * (61 + k)) as real > 61.0 * h
    ensures Contribution(l, RRF_K, 0) >= Step(h, k) <==> l * ((60 + k) * (61 + k)) as real >= 61.0 * h
  {
    ProductsGrow(k, k);
    StepIsQuotient(h, k);
    QuotientBelow(h, ((60 + k) * (61 + k)) as real, l, 61.0);
    QuotientBelow(l, 61.0, h, ((60 + k) * (61 + k)) as real);
  }

  lemma OneStepOutweighs(h: real, l: real, k: nat, first: bool)
    requires h > 0.0 && l > 0.0 && k >= 1
    requires if first then Contribution(l, RRF_K, 0) <= Step(h, k) else Contribution(l, RRF_K, 0) < Step(h, k)
    ensures TwoPlacesOutweigh(h, l, k) && NoneOvertakes(h, l, k, first)
  {
    StepDeclines(h, h, k + 1, k + 1);
    forall t | 0 <= t < PerIndex(k) ensures !Overtakes(h, l, k, t, first) {
      ContributionDeclines(l, 0, t);
    }
  }

  /** A heavy place that outweighs the whole light ranking: nothing overtakes, and ties go to the
      ranking read first. */
  lemma DominantIsExact(wa: real, wb: real, k: nat)
    requires wa > 0.0 && wb > 0.0 && k >= 1 && Dominant(wa, wb, k)
    ensures ReturnsTheBest(wa, wb, k)
  {
    DominantIsHeavier(wa, wb, k);
    FirstPlaceGain(MaxReal(wa, wb), MinReal(wa, wb), k);
    OneStepOutweighs(MaxReal(wa, wb), MinReal(wa, wb), k, wa >= wb);
    NoneOvertakesIsExact(wa, wb, k);
  }

  /** One weight is so large that a place in its ranking outweighs the whole other ranking, or just
      equals its first place if the heavy ranking is read first. */
  predicate Dominant(wa: real, wb: real, k: nat) {
    var g := ((60 + k) * (61 + k)) as real;
    61.0 * wa >= wb * g || 61.0 * wb > wa * g
  }

  lemma DominantIsHeavier(wa: real, wb: real, k: nat)
    requires wa > 0.0 && wb > 0.0 && k >= 1
    ensures 61.0 * wa >= wb * ((60 + k) * (61 + k)) as real ==> wa >= 62.0 * wb
    ensures 61.0 * wb > wa * ((60 + k) * (61 + k)) as real ==> wb > 62.0 * wa
  {
    ProductsGrow(1, k);
    Outweighs(wa, wb, ((60 + k) * (61 + k)) as real);
    Outweighs(wb, wa, ((60 + k) * (61 + k)) as real);
  }

  lemma Outweighs(x: real, y: real, g: real)
    requires y > 0.0 && g >= 3782.0
    ensures 61.0 * x >= y * g ==> x >= 62.0 * y
    ensures 61.0 * x > y * g ==> x > 62.0 * y
  {
    ProductsCompare(y, y, 3782.0, g);
  }

  /** For K up to 1240 that is the whole condition, for all weights and ties included. */
  lemma ReturnsTheBestClosedForm(wa: real, wb: real, k: nat)
    requires wa > 0.0 && wb > 0.0 && k >= 1 && 61 + PerIndex(k) < 61 * 62
    ensures ReturnsTheBest(wa, wb, k) <==> Dominant(wa, wb, k)
  {
    if Dominant(wa, wb, k) {
      DominantIsExact(wa, wb, k);
    } else {
      var t := FirstPlacesOvertake(wa, wb, k);
      OvertakingDropsABest(wa, wb, k, t);
    }
  }

  lemma FirstPlacesOvertake(wa: real, wb: real, k: nat) returns (t: nat)
    requires wa > 0.0 && wb > 0.0 && k >= 1 && 61 + PerIndex(k) < 61 * 62 && !Dominant(wa, wb, k)
    ensures t < PerIndex(k) && Overtakes(MaxReal(wa, wb), MinReal(wa, wb), k, t, wa >= wb)
  {
    var h, l, first := MaxReal(wa, wb), MinReal(wa, wb), wa >= wb;
    FirstPlaceGain(h, l, k);
    if Contribution(l, RRF_K, 0) > Step(h, k) {
      t := SomeOvertakes(h, l, k, 0, first);
    } else {
      // the tie, with the light ranking read first
      ContributionDeclines(l, PerIndex(k), PerIndex(k));
      t := 0;
    }
  }

  /** Weights within a factor of 62 are too close for every K. */
  lemma SimilarWeightsAreNeverExact(wa: real, wb: real, k: nat)
    requires wa > 0.0 && wb > 0.0 && k >= 1 && wa < 62.0 * wb && wb < 62.0 * wa
    ensures !ReturnsTheBest(wa, wb, k)
  {
    if 61 + PerIndex(k) < 61 * 62 {
      DominantIsHeavier(wa, wb, k);
      ReturnsTheBestClosedForm(wa, wb, k);
    } else {
      SimilarWeightsAtLargeK(wa, wb, k);
    }
  }

  lemma SimilarWeightsAtLargeK(wa: real, wb: real, k: nat)
    requires wa > 0.0 && wb > 0.0 && k >= 1 && wa < 62.0 * wb && wb < 62.0 * wa && 61 + PerIndex(k) >= 61 * 62
    ensures !ReturnsTheBest(wa, wb, k)
  {
    var h, l, p := MaxReal(wa, wb), MinReal(wa, wb), PerIndex(k);
    LastPlaceGains(h, l, k);
    SquareIsLarge(p);
    var u := SomeOvertakes(h, l, k, p - 1, wa >= wb);
    OvertakingDropsABest(wa, wb, k, u);
  }

  lemma SquareIsLarge(p: nat)
    requires p >= 1
    ensures (61 + (p - 1)) * (62 + (p - 1)) > 61 + p
  {
    assert (60 + p) * (61 + p) >= 61 * (61 + p);
  }

  lemma PlacesOutgrowFetches(k: nat)
    requires 61 + PerIndex(k) >= 61 * 62
    ensures (60 + k) * (61 + k) > 62 * (60 + PerIndex(k))
  {
    assert k >= 1241;
    assert (60 + k) * (61 + k) >= 1301 * (61 + k);
  }

  lemma SmallerQuotient(x: real, p: real, y: real, q: real)
    requires x < 62.0 * y && y > 0.0 && q > 0.0 && p > 62.0 * q
    ensures x / p < y / q
  {
    assert x * q < (62.0 * y) * q;
    assert y * p > y * (62.0 * q);
    QuotientBelow(x, p, y, q);
  }

  /** For large K even the last fetched light place gains more than a heavy place. */
  lemma LastPlaceGains(h: real, l: real, k: nat)
    requires l > 0.0 && 0.0 < h < 62.0 * l && k >= 1 && 61 + PerIndex(k) >= 61 * 62
    ensures Contribution(l, RRF_K, PerIndex(k) - 1) > Step(h, k)
  {
    PlacesOutgrowFetches(k);
    StepIsQuotient(h, k);
    SmallerQuotient(h, ((60 + k) * (61 + k)) as real, l, (60 + PerIndex(k)) as real);
  }

  /** At the default weights no K makes the returned set exact. */
  lemma DefaultWeightsAreNeverExact(k: nat)
    requires k >= 1
    ensures !ReturnsTheBest(DEFAULT_WEIGHTS.semantic, DEFAULT_WEIGHTS.keyword, k)
  {
    SimilarWeightsAreNeverExact(DEFAULT_WEIGHTS.semantic, DEFAULT_WEIGHTS.keyword, k);
  }

  /** From K = 1241 on the closed form is no longer necessary: here the first light place gains more
      than a heavy place, too much to be made up by a lost contribution, and every other gains less. */
  lemma ClosedFormEndsAt1241()
    ensures var wa, wb, k := 27321.1, 1.0, 1241;
      && !Dominant(wa, wb, k) && ReturnsTheBest(wa, wb, k)
  {
    var wa, wb, k := 27321.1, 1.0, 1241;
    var p := PerIndex(k);
    assert p == 3723;
    assert (60 + k) * (61 + k) == 1693902;
    assert !Dominant(wa, wb, k);
    StepIsQuotient(wa, k);
    var step := Step(wa, k);
    assert step == 27321.1 / 1693902.0;
    assert 1.0 / 62.0 < step && step + 1.0 / 3784.0 < 1.0 / 61.0;
    forall t | 0 <= t < p ensures !Overtakes(wa, wb, k, t, true) {
      if t > 0 { ContributionDeclines(wb, 1, t); }
    }
    StepIsQuotient(wa, k + 1);
    NoneOvertakesIsExact(wa, wb, k);
  }
}
