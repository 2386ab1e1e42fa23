/** Are the K items a hybrid search returns the K best of the complete fusion? Fetching enough to
    have seen them all is not enough: a document loses the contribution of a list that holds it
    beyond what was fetched, and can fall behind one that lost nothing. */
module ReturnedBest {
  import opened Domain
  import opened Fusion
  import opened FusedPlaces
  import opened Planner
  import opened OverFetch
  import opened Retrieval
  import Sql

  /** For all rankings the k returned documents are the k best of the complete fusion. */
  ghost predicate ReturnsTheBest(wa: real, wb: real, k: nat) {
    forall a: seq<string>, b: seq<string>, x: string ::
      DuplicateFree(a) && DuplicateFree(b) && InTop(a, b, wa, wb, k, x)
      ==> InTop(Trimmed(a, PerIndex(k)), Trimmed(b, PerIndex(k)), wa, wb, k, x)
  }

  /** The items of a hybrid search are the first final_k of the fusion of what was fetched. */
  lemma ItemsAreTop(k: nat, w: SearchWeights, plan: QueryPlan, vec: seq<Hit>, fts: seq<Hit>,
                    a: seq<string>, b: seq<string>, x: string)
    requires Plan(Hybrid, k, w, false) == Ok(plan)
    requires AnswersFrom(vec, a, plan.kPerIndex) && AnswersFrom(fts, b, plan.kPerIndex)
    ensures (exists i :: 0 <= i < |ItemsOf(plan, vec, fts)| && ItemsOf(plan, vec, fts)[i].id == x)
       <==> InTop(Trimmed(a, plan.kPerIndex), Trimmed(b, plan.kPerIndex), w.semantic, w.keyword, plan.finalK, x)
  {
    var items, r := ItemsOf(plan, vec, fts), Ranked(plan, vec, fts);
    assert r == Fused([Trimmed(a, plan.kPerIndex), Trimmed(b, plan.kPerIndex)], [w.semantic, w.keyword], RRF_K);
    forall i | 0 <= i < |items| ensures items[i].id == r[i].0 {
    }
  }

  // ---------------------------------------------------------------- the condition

  /** What the k-th place of the heavy ranking is worth over the next one. */
  function Step(h: real, k: nat): real
    requires k >= 1
  {
    Contribution(h, RRF_K, k - 1) - Contribution(h, RRF_K, k)
  }

  /** A document at place k + 1 of the heavy ranking that stands at place t of the light one gets past
      the document at place k if that one's light contribution is cut off, and not otherwise. Ties go
      to the document that the ranking read first holds first. */
  predicate Overtakes(h: real, l: real, k: nat, t: nat, heavyFirst: bool)
    requires k >= 1
  {
    var gain, lost := Contribution(l, RRF_K, t), Contribution(l, RRF_K, PerIndex(k));
    if heavyFirst then Step(h, k) < gain <= Step(h, k) + lost else Step(h, k) <= gain < Step(h, k) + lost
  }

  /** No fetched place of the light ranking overtakes. */
  predicate NoneOvertakes(h: real, l: real, k: nat, heavyFirst: bool)
    requires k >= 1
  {
    forall t :: 0 <= t < PerIndex(k) ==> !Overtakes(h, l, k, t, heavyFirst)
  }

  /** Two heavy places outweigh everything the light ranking can give. */
  predicate TwoPlacesOutweigh(h: real, l: real, k: nat)
    requires k >= 1
  {
    Contribution(l, RRF_K, 0) < Contribution(h, RRF_K, k - 1) - Contribution(h, RRF_K, k + 1)
  }

  /** The fusion score with the heavy ranking and a light one, in whichever order they are passed. */
  function Total(heavy: seq<string>, light: seq<string>, h: real, l: real, x: string): real {
    ListScore(heavy, h, RRF_K, x) + ListScore(light, l, RRF_K, x)
  }

  /** Rankings and weights as the fusion gets them: the heavy ranking first or second. */
  datatype Input = Input(a: seq<string>, b: seq<string>, wa: real, wb: real)

  function Ordered(heavy: seq<string>, light: seq<string>, h: real, l: real, first: bool): Input {
    if first then Input(heavy, light, h, l) else Input(light, heavy, l, h)
  }

  lemma TotalIsScore(heavy: seq<string>, light: seq<string>, h: real, l: real, first: bool, x: string)
    ensures var i := Ordered(heavy, light, h, l, first);
      Score2(i.a, i.b, i.wa, i.wb, x) == Total(heavy, light, h, l, x)
  {
    var i := Ordered(heavy, light, h, l, first);
    Score2Splits(i.a, i.b, i.wa, i.wb, x);
  }

  ghost predicate Best(heavy: seq<string>, light: seq<string>, h: real, l: real, first: bool, k: nat, x: string) {
    var i := Ordered(heavy, light, h, l, first);
    InTop(i.a, i.b, i.wa, i.wb, k, x)
  }

  ghost predicate Beats(heavy: seq<string>, light: seq<string>, h: real, l: real, first: bool, y: string, x: string) {
    var i := Ordered(heavy, light, h, l, first);
    Wins(i.a, i.b, i.wa, i.wb, y, x)
  }

  function PlaceIn(heavy: seq<string>, light: seq<string>, first: bool, x: string): nat
    requires x in heavy || x in light
  {
    if first then Place(heavy, light, x) else Place(light, heavy, x)
  }

  /** The higher total wins, and at equal totals the earlier place. */
  lemma BeatsIff(heavy: seq<string>, light: seq<string>, h: real, l: real, first: bool, y: string, x: string)
    requires DuplicateFree(heavy) && DuplicateFree(light) && y != x
    requires (y in heavy || y in light) && (x in heavy || x in light)
    ensures Beats(heavy, light, h, l, first, y, x) <==>
      || Total(heavy, light, h, l, y) > Total(heavy, light, h, l, x)
      || (Total(heavy, light, h, l, y) == Total(heavy, light, h, l, x)
          && PlaceIn(heavy, light, first, y) < PlaceIn(heavy, light, first, x))
  {
    var i := Ordered(heavy, light, h, l, first);
    TotalIsScore(heavy, light, h, l, first, x);
    TotalIsScore(heavy, light, h, l, first, y);
    SeenFirstIff(i.a, i.b, y, x);
  }

  lemma KeptOut(heavy: seq<string>, light: seq<string>, h: real, l: real, first: bool, k: nat, x: string, better: set<string>)
    requires forall y :: y in better ==> (y in heavy || y in light) && y != x && Beats(heavy, light, h, l, first, y, x)
    requires |better| >= k
    ensures !Best(heavy, light, h, l, first, k, x)
  {
    var i := Ordered(heavy, light, h, l, first);
    ManyWinnersKeepOut(i.a, i.b, i.wa, i.wb, k, x, better);
  }

  lemma LetIn(heavy: seq<string>, light: seq<string>, h: real, l: real, first: bool, k: nat, x: string, rivals: set<string>)
    requires x in heavy || x in light
    requires forall y :: (y in heavy || y in light) && y != x && Beats(heavy, light, h, l, first, y, x) ==> y in rivals
    requires |rivals| < k
    ensures Best(heavy, light, h, l, first, k, x)
  {
    var i := Ordered(heavy, light, h, l, first);
    FewWinnersLetIn(i.a, i.b, i.wa, i.wb, k, x, rivals);
  }

  // ---------------------------------------------------------------- overtaking loses a best document

  /** The heavy ranking: k - 1 shared documents, then number p, then number p + 1. */
  function Heavy(k: nat, p: nat): (r: seq<string>)
    requires k >= 1
    ensures |r| == k + 1
    ensures forall i :: 0 <= i < k - 1 ==> r[i] == Doc(i)
    ensures r[k - 1] == Doc(p) && r[k] == Doc(p + 1)
  {
    seq(k + 1, i requires 0 <= i => if i < k - 1 then Doc(i) else if i == k - 1 then Doc(p) else Doc(p + 1))
  }

  /** The light ranking: the shared documents and its own in order, except that number p + 1 takes
      place t; number p stands just beyond the first p places. */
  function Light(p: nat, t: nat): (r: seq<string>)
    requires t < p
    ensures |r| == p + 1
    ensures forall i :: 0 <= i < p ==> r[i] == Doc(if i == t then p + 1 else i)
    ensures r[p] == Doc(p)
  {
    seq(p + 1, i requires 0 <= i => Doc(if i == t then p + 1 else i))
  }

  lemma DocsDiffer(m: nat, n: nat)
    ensures Doc(m) == Doc(n) <==> m == n
  {
  }

  lemma HeavyIsDuplicateFree(k: nat, p: nat)
    requires 1 <= k < p
    ensures DuplicateFree(Heavy(k, p))
  {
    var h := Heavy(k, p);
    forall i, j | 0 <= i < j < |h| ensures h[i] != h[j] {
      DocsDiffer(if i < k - 1 then i else p, if j < k - 1 then j else if j == k - 1 then p else p + 1);
    }
  }

  lemma LightIsDuplicateFree(p: nat, t: nat)
    requires t < p
    ensures DuplicateFree(Light(p, t)) && DuplicateFree(Light(p, t)[..p])
  {
    var l := Light(p, t);
    forall i, j | 0 <= i < j < |l| ensures l[i] != l[j] {
      DocsDiffer(if i == t then p + 1 else i, if j == t then p + 1 else j);
    }
  }

  lemma HeavyScores(k: nat, p: nat, w: real, n: nat)
    requires 1 <= k < p && n <= p + 1
    ensures ListScore(Heavy(k, p), w, RRF_K, Doc(n)) ==
      if n < k - 1 then Contribution(w, RRF_K, n)
      else if n == p then Contribution(w, RRF_K, k - 1)
      else if n == p + 1 then Contribution(w, RRF_K, k)
      else 0.0
  {
    var h := Heavy(k, p);
    HeavyIsDuplicateFree(k, p);
    if n < k - 1 || n >= p {
      ScoreAtRank(h, w, RRF_K, if n < k - 1 then n else if n == p then k - 1 else k);
    } else {
      forall i | 0 <= i < |h| ensures h[i] != Doc(n) {
        DocsDiffer(if i < k - 1 then i else if i == k - 1 then p else p + 1, n);
      }
      AbsentScoresZero(h, w, RRF_K, Doc(n));
    }
  }

  lemma LightScores(p: nat, t: nat, w: real, n: nat)
    requires t < p && n <= p + 1
    ensures ListScore(Light(p, t), w, RRF_K, Doc(n)) ==
      if n == t then 0.0 else if n == p + 1 then Contribution(w, RRF_K, t) else Contribution(w, RRF_K, n)
    ensures ListScore(Light(p, t)[..p], w, RRF_K, Doc(n)) ==
      if n == t || n == p then 0.0 else if n == p + 1 then Contribution(w, RRF_K, t) else Contribution(w, RRF_K, n)
  {
    var l := Light(p, t);
    var top := l[..p];
    LightIsDuplicateFree(p, t);
    if n == t {
      forall i | 0 <= i <= p ensures l[i] != Doc(n) { DocsDiffer(if i == t then p + 1 else i, n); }
      AbsentScoresZero(l, w, RRF_K, Doc(n));
      AbsentScoresZero(top, w, RRF_K, Doc(n));
    } else {
      var i := if n == p + 1 then t else n;
      ScoreAtRank(l, w, RRF_K, i);
      if n == p {
        forall i | 0 <= i < p ensures top[i] != Doc(n) { DocsDiffer(if i == t then p + 1 else i, n); }
        AbsentScoresZero(top, w, RRF_K, Doc(n));
      } else {
        assert top[i] == l[i];
        ScoreAtRank(top, w, RRF_K, i);
      }
    }
  }

  function Shared(k: nat): (s: seq<string>)
    requires k >= 1
    ensures |s| == k - 1 && forall i :: 0 <= i < k - 1 ==> s[i] == Doc(i)
  {
    seq(k - 1, i requires 0 <= i => Doc(i))
  }

  lemma SharedCount(k: nat)
    requires k >= 1
    ensures |set d | d in Shared(k)| == k - 1
  {
    var s := Shared(k);
    forall i, j | 0 <= i < j < |s| ensures s[i] != s[j] { DocsDiffer(i, j); }
    Sql.DistinctCount(s);
  }

  lemma NumberOf(k: nat, p: nat, t: nat, y: string) returns (n: nat)
    requires 1 <= k < p && t < p && (y in Heavy(k, p) || y in Light(p, t))
    ensures n <= p + 1 && y == Doc(n) && (n == t ==> t < k - 1)
  {
    var heavy, light := Heavy(k, p), Light(p, t);
    if y in heavy {
      var i :| 0 <= i < |heavy| && heavy[i] == y;
      n := if i < k - 1 then i else if i == k - 1 then p else p + 1;
    } else {
      n :| 0 <= n < |light| && light[n] == y;
      assert heavy[k] == light[t];
    }
  }

  /** In the complete fusion a document that is not shared does not win against document p. */
  lemma OthersAreBehind(k: nat, p: nat, t: nat, h: real, l: real, first: bool, n: nat)
    requires k >= 1 && p == PerIndex(k) && t < p && h >= l > 0.0 && Overtakes(h, l, k, t, first)
    requires k - 1 <= n <= p + 1 && n != t && n != p
    requires Doc(n) in Heavy(k, p) || Doc(n) in Light(p, t)
    ensures !Beats(Heavy(k, p), Light(p, t), h, l, first, Doc(n), Doc(p))
  {
    var heavy, light := Heavy(k, p), Light(p, t);
    HeavyIsDuplicateFree(k, p);
    LightIsDuplicateFree(p, t);
    HeavyScores(k, p, h, p);
    LightScores(p, t, l, p);
    HeavyScores(k, p, h, n);
    LightScores(p, t, l, n);
    DocsDiffer(n, p);
    assert heavy[k - 1] == Doc(p) && heavy[k] == Doc(p + 1);
    if n < p {
      ContributionDeclines(l, k - 1, n);
      ContributionDeclines(l, p, p);
      LighterContributesLess(l, h, k - 1);
    } else {
      IndexIsUnique(heavy, k - 1);
      IndexIsUnique(heavy, k);
    }
    BeatsIff(heavy, light, h, l, first, Doc(n), Doc(p));
  }

  /** In the complete fusion document p is one of the k best. */
  lemma CutOffIsBest(k: nat, p: nat, t: nat, h: real, l: real, first: bool)
    requires k >= 1 && p == PerIndex(k) && t < p && h >= l > 0.0 && Overtakes(h, l, k, t, first)
    ensures Best(Heavy(k, p), Light(p, t), h, l, first, k, Doc(p))
  {
    var heavy, light, x := Heavy(k, p), Light(p, t), Doc(p);
    forall y | (y in heavy || y in light) && y != x && Beats(heavy, light, h, l, first, y, x)
      ensures y in set d | d in Shared(k)
    {
      var n := NumberOf(k, p, t, y);
      if n < k - 1 {
        assert y == Shared(k)[n];
      } else {
        OthersAreBehind(k, p, t, h, l, first, n);
      }
    }
    SharedCount(k);
    assert heavy[k - 1] == x;
    LetIn(heavy, light, h, l, first, k, x, set d | d in Shared(k));
  }

  /** Of what is fetched the shared documents and document p + 1 win against it. */
  lemma CutOffIsBeaten(k: nat, p: nat, t: nat, h: real, l: real, first: bool, n: nat)
    requires k >= 1 && p == PerIndex(k) && t < p && h >= l > 0.0 && Overtakes(h, l, k, t, first)
    requires n < k - 1 || n == p + 1
    ensures (Doc(n) in Heavy(k, p) || Doc(n) in Light(p, t)[..p]) && Doc(n) != Doc(p)
    ensures Beats(Heavy(k, p), Light(p, t)[..p], h, l, first, Doc(n), Doc(p))
  {
    var heavy, light := Heavy(k, p), Light(p, t)[..p];
    HeavyIsDuplicateFree(k, p);
    LightIsDuplicateFree(p, t);
    HeavyScores(k, p, h, p);
    LightScores(p, t, l, p);
    HeavyScores(k, p, h, n);
    LightScores(p, t, l, n);
    DocsDiffer(n, p);
    assert heavy[k - 1] == Doc(p) && heavy[k] == Doc(p + 1);
    if n < k - 1 {
      assert heavy[n] == Doc(n);
      HigherRankContributesMore(h, RRF_K, n, k - 1);
      ContributionDeclines(l, n, n);
    } else {
      assert light[t] == Doc(p + 1);
      forall i | 0 <= i < p ensures light[i] != Doc(p) { DocsDiffer(if i == t then p + 1 else i, p); }
    }
    BeatsIff(heavy, light, h, l, first, Doc(n), Doc(p));
  }

  lemma CutOffIsDropped(k: nat, p: nat, t: nat, h: real, l: real, first: bool)
    requires k >= 1 && p == PerIndex(k) && t < p && h >= l > 0.0 && Overtakes(h, l, k, t, first)
    ensures !Best(Heavy(k, p), Light(p, t)[..p], h, l, first, k, Doc(p))
  {
    var heavy, light, x := Heavy(k, p), Light(p, t)[..p], Doc(p);
    var better := (set d | d in Shared(k)) + {Doc(p + 1)};
    forall y | y in better
      ensures (y in heavy || y in light) && y != x && Beats(heavy, light, h, l, first, y, x)
    {
      if y in Shared(k) {
        var n :| 0 <= n < k - 1 && Shared(k)[n] == y;
        CutOffIsBeaten(k, p, t, h, l, first, n);
      } else {
        CutOffIsBeaten(k, p, t, h, l, first, p + 1);
      }
    }
    SharedCount(k);
    forall i | 0 <= i < k - 1 ensures Shared(k)[i] != Doc(p + 1) {
      DocsDiffer(i, p + 1);
    }
    KeptOut(heavy, light, h, l, first, k, x, better);
  }

  /** If some fetched place of the light ranking overtakes, a document that was fetched and is one of
      the k best is dropped. */
  lemma OvertakingDropsABest(wa: real, wb: real, k: nat, t: nat)
    requires wa > 0.0 && wb > 0.0 && k >= 1 && t < PerIndex(k)
    requires Overtakes(MaxReal(wa, wb), MinReal(wa, wb), k, t, wa >= wb)
    ensures !ReturnsTheBest(wa, wb, k)
  {
    var p, first, h, l := PerIndex(k), wa >= wb, MaxReal(wa, wb), MinReal(wa, wb);
    CutOffIsBest(k, p, t, h, l, first);
    CutOffIsDropped(k, p, t, h, l, first);
    HeavyIsDuplicateFree(k, p);
    LightIsDuplicateFree(p, t);
    var i := Ordered(Heavy(k, p), Light(p, t), h, l, first);
    assert Trimmed(Heavy(k, p), p) == Heavy(k, p) && Trimmed(Light(p, t), p) == Light(p, t)[..p];
    assert InTop(i.a, i.b, wa, wb, k, Doc(p));
  }

  function MinReal(x: real, y: real): real {
    if x >= y then y else x
  }

}
