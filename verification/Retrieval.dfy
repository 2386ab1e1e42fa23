/** Merging the indexes' answers into one ranked result. What an index returns is an arbitrary
    ranked list. */
module Retrieval {
  import opened Domain
  import opened Sorting
  import opened Fusion
  import opened Planner
  import opened OverFetch

  datatype Hit = Hit(id: string, score: real, content: string)

  datatype Item = Item(id: string, content: string, score: real)

  function Ids(hits: seq<Hit>): (r: seq<string>)
    ensures |r| == |hits| && forall i :: 0 <= i < |hits| ==> r[i] == hits[i].id
  {
    seq(|hits|, i requires 0 <= i < |hits| => hits[i].id)
  }

  function LastOf(hits: seq<Hit>, id: string): Option<Hit> {
    if hits == [] then None
    else if hits[|hits| - 1].id == id then Some(hits[|hits| - 1])
    else LastOf(hits[..|hits| - 1], id)
  }

  function FirstOf(hits: seq<Hit>, id: string): Option<Hit> {
    if hits == [] then None
    else
      var n := |hits| - 1;
      var earlier := FirstOf(hits[..n], id);
      if earlier.Some? then earlier else if hits[n].id == id then Some(hits[n]) else None
  }

  /** The hit that content and score of an id are taken from: the vector index's, or else the
      full-text index's. */
  function SourceOf(vec: seq<Hit>, fts: seq<Hit>, id: string): Option<Hit> {
    if LastOf(vec, id).Some? then LastOf(vec, id) else FirstOf(fts, id)
  }

  function WeightOr(plan: QueryPlan, name: string): real {
    if name in plan.weights then plan.weights[name] else 1.0
  }

  /** The hits an index contributes, if the plan targets it. */
  function Gathered(plan: QueryPlan, target: Target, hits: seq<Hit>): seq<Hit> {
    if target in plan.targets then hits else []
  }

  function OwnScores(hits: seq<Hit>, vec: seq<Hit>, fts: seq<Hit>): seq<Scored> {
    seq(|hits|, i requires 0 <= i < |hits| =>
      (hits[i].id, if SourceOf(vec, fts, hits[i].id).Some? then SourceOf(vec, fts, hits[i].id).value.score else 1.0))
  }

  function Ranked(plan: QueryPlan, vec: seq<Hit>, fts: seq<Hit>): seq<Scored> {
    if Vector in plan.targets && FullText in plan.targets then
      Fused([Ids(vec), Ids(fts)], [WeightOr(plan, "semantic_weight"), WeightOr(plan, "keyword_weight")], RRF_K)
    else if Vector in plan.targets then OwnScores(vec, vec, [])
    else if FullText in plan.targets then OwnScores(fts, [], fts)
    else []
  }

  function Trimmed<T>(s: seq<T>, k: nat): (r: seq<T>)
    ensures |r| == (if |s| <= k then |s| else k) && r <= s
  {
    if |s| <= k then s else s[..k]
  }

  function ItemOf(vec: seq<Hit>, fts: seq<Hit>, x: Scored): Item {
    Item(x.0, if SourceOf(vec, fts, x.0).Some? then SourceOf(vec, fts, x.0).value.content else "", x.1)
  }

  function ItemsOf(plan: QueryPlan, vec: seq<Hit>, fts: seq<Hit>): seq<Item> {
    var ranked := Trimmed(Ranked(plan, vec, fts), plan.finalK);
    var v, f := Gathered(plan, Vector, vec), Gathered(plan, FullText, fts);
    seq(|ranked|, i requires 0 <= i < |ranked| => ItemOf(v, f, ranked[i]))
  }

  method BuildMap(vec: seq<Hit>, fts: seq<Hit>) returns (sources: map<string, Hit>)
    ensures IsSourceMap(sources, vec, fts)
  {
    sources := map[];
    for i := 0 to |vec|
      invariant forall id :: id in sources <==> LastOf(vec[..i], id).Some?
      invariant forall id :: id in sources ==> LastOf(vec[..i], id) == Some(sources[id])
    {
      assert vec[..i + 1][..i] == vec[..i];
      sources := sources[vec[i].id := vec[i]];
    }
    assert vec[..|vec|] == vec;
    for i := 0 to |fts|
      invariant IsSourceMap(sources, vec, fts[..i])
    {
      assert fts[..i + 1][..i] == fts[..i];
      if fts[i].id !in sources {
        sources := sources[fts[i].id := fts[i]];
      }
    }
    assert fts[..|fts|] == fts;
  }

  /** Fusion of two lists, or the only list with its own scores. */
  method Merge(plan: QueryPlan, vec: seq<Hit>, fts: seq<Hit>, sources: map<string, Hit>) returns (merged: seq<Scored>)
    requires IsSourceMap(sources, Gathered(plan, Vector, vec), Gathered(plan, FullText, fts))
    ensures merged == Ranked(plan, vec, fts)
  {
    var rankedLists: seq<seq<string>>, weights: seq<real> := [], [];
    if Vector in plan.targets {
      rankedLists, weights := rankedLists + [Ids(vec)], weights + [WeightOr(plan, "semantic_weight")];
    }
    if FullText in plan.targets {
      rankedLists, weights := rankedLists + [Ids(fts)], weights + [WeightOr(plan, "keyword_weight")];
    }
    if |rankedLists| > 1 {
      merged := ReciprocalRankFusion(rankedLists, Some(weights), RRF_K);
      assert rankedLists[..2] == rankedLists == [Ids(vec), Ids(fts)];
      assert weights[..2] == weights == [WeightOr(plan, "semantic_weight"), WeightOr(plan, "keyword_weight")];
    } else if |rankedLists| == 1 {
      var ids := rankedLists[0];
      merged := seq(|ids|, i requires 0 <= i < |ids| =>
        (ids[i], if ids[i] in sources then sources[ids[i]].score else 1.0));
      if Vector in plan.targets {
        assert merged == OwnScores(vec, vec, []);
      } else {
        assert merged == OwnScores(fts, [], fts);
      }
    } else {
      merged := [];
    }
  }

  ghost predicate IsSourceMap(sources: map<string, Hit>, vec: seq<Hit>, fts: seq<Hit>) {
    && (forall id :: id in sources <==> SourceOf(vec, fts, id).Some?)
    && (forall id :: id in sources ==> SourceOf(vec, fts, id) == Some(sources[id]))
  }

  /** The content and score maps have the same keys, so one map of hits stands for both. */
  method Retrieve(plan: QueryPlan, vec: seq<Hit>, fts: seq<Hit>, hasGraph: bool)
    returns (r: Result<seq<Item>, PlanError>)
    ensures if GraphIndex in plan.targets && !hasGraph then r == Err(CapabilityNotAvailable)
            else r == Ok(ItemsOf(plan, vec, fts))
  {
    if GraphIndex in plan.targets && !hasGraph {
      return Err(CapabilityNotAvailable);
    }
    var sources := BuildMap(Gathered(plan, Vector, vec), Gathered(plan, FullText, fts));
    var merged := Merge(plan, vec, fts, sources);
    merged := Trimmed(merged, plan.finalK);
    var items := seq(|merged|, i requires 0 <= i < |merged| =>
      Item(merged[i].0, if merged[i].0 in sources then sources[merged[i].0].content else "", merged[i].1));
    assert items == ItemsOf(plan, vec, fts);
    r := Ok(items);
  }

  lemma {:induction false} LastOfFinds(hits: seq<Hit>, id: string)
    ensures LastOf(hits, id).Some? <==> id in Ids(hits)
    ensures LastOf(hits, id).Some? ==> LastOf(hits, id).value in hits && LastOf(hits, id).value.id == id
  {
    if hits != [] {
      var n := |hits| - 1;
      LastOfFinds(hits[..n], id);
      assert Ids(hits) == Ids(hits[..n]) + [hits[n].id];
    }
  }

  lemma {:induction false} FirstOfFinds(hits: seq<Hit>, id: string)
    ensures FirstOf(hits, id).Some? <==> id in Ids(hits)
    ensures FirstOf(hits, id).Some? ==> FirstOf(hits, id).value in hits && FirstOf(hits, id).value.id == id
  {
    if hits != [] {
      var n := |hits| - 1;
      FirstOfFinds(hits[..n], id);
      assert Ids(hits) == Ids(hits[..n]) + [hits[n].id];
    }
  }

  /** Every returned item is backed by a hit of a targeted index with that id and content. */
  lemma ItemsComeFromHits(plan: QueryPlan, vec: seq<Hit>, fts: seq<Hit>, n: nat)
    requires n < |ItemsOf(plan, vec, fts)|
    ensures |ItemsOf(plan, vec, fts)| <= plan.finalK
    ensures exists h: Hit :: (h in Gathered(plan, Vector, vec) || h in Gathered(plan, FullText, fts))
              && h.id == ItemsOf(plan, vec, fts)[n].id && h.content == ItemsOf(plan, vec, fts)[n].content
  {
    var v, f := Gathered(plan, Vector, vec), Gathered(plan, FullText, fts);
    var x := Ranked(plan, vec, fts)[n];
    if Vector in plan.targets && FullText in plan.targets {
      var lists, ws := [Ids(vec), Ids(fts)], [WeightOr(plan, "semantic_weight"), WeightOr(plan, "keyword_weight")];
      assert x in Fused(lists, ws, RRF_K);
      FusedMembers(lists, ws, RRF_K, x);
      var l :| 0 <= l < 2 && x.0 in lists[l];
    } else if Vector in plan.targets {
      assert Ids(vec)[n] == x.0;
    } else {
      assert Ids(fts)[n] == x.0;
    }
    assert x.0 in Ids(v) || x.0 in Ids(f);
    LastOfFinds(v, x.0);
    FirstOfFinds(f, x.0);
    assert SourceOf(v, f, x.0).value.id == x.0;
  }

  /** The hits an index returns when asked for the plan's number of its full ranking. */
  ghost predicate AnswersFrom(hits: seq<Hit>, ranking: seq<string>, limit: nat) {
    Ids(hits) == Trimmed(ranking, limit)
  }

  /** The ranking has the document, but the index was not asked far enough to return it. */
  predicate Unfetched(ranking: seq<string>, limit: nat, id: string) {
    id in ranking && id !in Trimmed(ranking, limit)
  }

  lemma TrimmedScore(ranking: seq<string>, w: real, limit: nat, id: string)
    requires DuplicateFree(ranking) && w > 0.0
    ensures ListScore(Trimmed(ranking, limit), w, RRF_K, id)
         == if Unfetched(ranking, limit, id) then 0.0 else ListScore(ranking, w, RRF_K, id)
    ensures Unfetched(ranking, limit, id) ==> ListScore(ranking, w, RRF_K, id) > 0.0
  {
    var top := Trimmed(ranking, limit);
    if id in top {
      var i :| 0 <= i < |top| && top[i] == id;
      ScoreAtRank(top, w, RRF_K, i);
      ScoreAtRank(ranking, w, RRF_K, i);
    } else {
      AbsentScoresZero(top, w, RRF_K, id);
      if id in ranking {
        var i :| 0 <= i < |ranking| && ranking[i] == id;
        ScoreAtRank(ranking, w, RRF_K, i);
        HigherRankContributesMore(w, RRF_K, i, i + 1);
      } else {
        AbsentScoresZero(ranking, w, RRF_K, id);
      }
    }
  }

  /** A fused score weighs the vector ranking by the semantic and the full-text ranking by the keyword
      weight. It is never above the score in the fusion of the complete rankings, and it is that
      score exactly when no consulted index holds the document beyond what was fetched. */
  lemma FusedScoreIsExactIff(mode: Mode, k: nat, w: SearchWeights, graph: bool, plan: QueryPlan,
                             vec: seq<Hit>, fts: seq<Hit>, a: seq<string>, b: seq<string>, x: Scored)
    requires Plan(mode, k, w, graph) == Ok(plan) && Vector in plan.targets && FullText in plan.targets
    requires w.semantic > 0.0 && w.keyword > 0.0 && DuplicateFree(a) && DuplicateFree(b)
    requires AnswersFrom(vec, a, plan.kPerIndex) && AnswersFrom(fts, b, plan.kPerIndex)
    requires x in Ranked(plan, vec, fts)
    ensures x.1 <= Score2(a, b, w.semantic, w.keyword, x.0)
    ensures x.1 == Score2(a, b, w.semantic, w.keyword, x.0)
       <==> !Unfetched(a, plan.kPerIndex, x.0) && !Unfetched(b, plan.kPerIndex, x.0)
  {
    FusedMembers([Ids(vec), Ids(fts)], [w.semantic, w.keyword], RRF_K, x);
    assert x.1 == Score2(Ids(vec), Ids(fts), w.semantic, w.keyword, x.0);
    Score2Splits(Ids(vec), Ids(fts), w.semantic, w.keyword, x.0);
    Score2Splits(a, b, w.semantic, w.keyword, x.0);
    TrimmedScore(a, w.semantic, plan.kPerIndex, x.0);
    TrimmedScore(b, w.keyword, plan.kPerIndex, x.0);
  }

  /** Under the bound a hybrid search sees every document of the K best that fusing the two complete
      rankings would give. */
  lemma HybridSearchSeesTheBest(k: nat, w: SearchWeights, plan: QueryPlan, vec: seq<Hit>, fts: seq<Hit>,
                                a: seq<string>, b: seq<string>, n: nat)
    requires Plan(Hybrid, k, w, false) == Ok(plan) && w.semantic > 0.0 && w.keyword > 0.0
    requires DuplicateFree(a) && DuplicateFree(b)
    requires AnswersFrom(vec, a, plan.kPerIndex) && AnswersFrom(fts, b, plan.kPerIndex)
    requires Bound(w.semantic, w.keyword, plan.finalK)
    requires n < plan.finalK && n < |Fused([a, b], [w.semantic, w.keyword], RRF_K)|
    ensures exists x :: x in Ranked(plan, vec, fts) && x.0 == Fused([a, b], [w.semantic, w.keyword], RRF_K)[n].0
  {
    var best := Fused([a, b], [w.semantic, w.keyword], RRF_K)[n].0;
    TopKAreFetched(a, b, w.semantic, w.keyword, plan.finalK, n);
    var lists, ws := [Ids(vec), Ids(fts)], [w.semantic, w.keyword];
    assert Occurs(lists, best) by {
      if i :| 0 <= i < |a| && i < plan.kPerIndex && a[i] == best {
        assert Ids(vec)[i] == best && best in lists[0];
      } else {
        var i :| 0 <= i < |b| && i < plan.kPerIndex && b[i] == best;
        assert Ids(fts)[i] == best && best in lists[1];
      }
    }
    FusedMembers(lists, ws, RRF_K, Entry(lists, ws, RRF_K, best));
  }
}
