/** What a search returns: which hits, in which order, with which scores and contents, by mode. */
module SearchResults {
  import opened Domain
  import opened Sorting
  import opened Fusion
  import opened FusedPlaces
  import opened Planner
  import opened OverFetch
  import opened Retrieval

  /** h is the last vector hit of the id, or its first full-text hit if the vector index has none. */
  ghost predicate IsSource(vec: seq<Hit>, fts: seq<Hit>, id: string, h: Hit) {
    || (exists j :: 0 <= j < |vec| && vec[j] == h && h.id == id && forall l :: j < l < |vec| ==> vec[l].id != id)
    || ((forall l :: 0 <= l < |vec| ==> vec[l].id != id)
        && exists j :: 0 <= j < |fts| && fts[j] == h && h.id == id && forall l :: 0 <= l < j ==> fts[l].id != id)
  }

  lemma {:induction false} LastIsLast(hits: seq<Hit>, id: string) returns (j: nat)
    requires LastOf(hits, id).Some?
    ensures j < |hits| && hits[j] == LastOf(hits, id).value && hits[j].id == id
    ensures forall l :: j < l < |hits| ==> hits[l].id != id
  {
    var n := |hits| - 1;
    if hits[n].id == id {
      j := n;
    } else {
      j := LastIsLast(hits[..n], id);
      assert forall l :: j < l < n ==> hits[..n][l] == hits[l];
    }
  }

  lemma {:induction false} FirstIsFirst(hits: seq<Hit>, id: string) returns (j: nat)
    requires FirstOf(hits, id).Some?
    ensures j < |hits| && hits[j] == FirstOf(hits, id).value && hits[j].id == id
    ensures forall l :: 0 <= l < j ==> hits[l].id != id
  {
    var n := |hits| - 1;
    if FirstOf(hits[..n], id).Some? {
      j := FirstIsFirst(hits[..n], id);
      assert forall l :: 0 <= l < j ==> hits[..n][l] == hits[l];
    } else {
      j := n;
      FirstOfFinds(hits[..n], id);
      forall l | 0 <= l < n ensures hits[l].id != id { assert Ids(hits[..n])[l] == hits[l].id; }
    }
  }

  lemma SourceIsFound(vec: seq<Hit>, fts: seq<Hit>, id: string)
    requires id in Ids(vec) || id in Ids(fts)
    ensures SourceOf(vec, fts, id).Some? && IsSource(vec, fts, id, SourceOf(vec, fts, id).value)
  {
    LastOfFinds(vec, id);
    FirstOfFinds(fts, id);
    if LastOf(vec, id).Some? {
      var j := LastIsLast(vec, id);
    } else {
      var j := FirstIsFirst(fts, id);
      forall l | 0 <= l < |vec| ensures vec[l].id != id { assert Ids(vec)[l] == vec[l].id; }
    }
  }

  /** A list of hits comes back in its own order, cut to k, each id with the score and the content of the
      hit that counts for it. */
  ghost predicate IsOwnOrder(items: seq<Item>, hits: seq<Hit>, vec: seq<Hit>, fts: seq<Hit>, k: nat) {
    && |items| == (if |hits| <= k then |hits| else k)
    && forall i :: 0 <= i < |items| ==>
         && items[i].id == hits[i].id
         && exists h :: IsSource(vec, fts, hits[i].id, h) && items[i].score == h.score && items[i].content == h.content
  }

  /** A search of one index returns that index's first hits in that index's order. */
  lemma OneIndexKeepsItsOrder(plan: QueryPlan, vec: seq<Hit>, fts: seq<Hit>)
    requires (Vector in plan.targets) != (FullText in plan.targets)
    ensures if Vector in plan.targets then IsOwnOrder(ItemsOf(plan, vec, fts), vec, vec, [], plan.finalK)
            else IsOwnOrder(ItemsOf(plan, vec, fts), fts, [], fts, plan.finalK)
  {
    var items := ItemsOf(plan, vec, fts);
    var v, f := Gathered(plan, Vector, vec), Gathered(plan, FullText, fts);
    var hits := if Vector in plan.targets then vec else fts;
    forall i | 0 <= i < |items|
      ensures items[i].id == hits[i].id
      ensures exists h :: IsSource(v, f, hits[i].id, h) && items[i].score == h.score && items[i].content == h.content
    {
      assert Ids(hits)[i] == hits[i].id;
      SourceIsFound(v, f, hits[i].id);
    }
  }

  /** d comes before e in the fusion of the two lists of hits. */
  ghost predicate Leads(vec: seq<Hit>, fts: seq<Hit>, ws: real, wk: real, d: string, e: string) {
    Wins(Ids(vec), Ids(fts), ws, wk, d, e)
  }

  /** The weight of a list, 1 if the plan has none. */
  predicate IsWeight(plan: QueryPlan, name: string, w: real) {
    if name in plan.weights then w == plan.weights[name] else w == 1.0
  }

  /** A search of both indexes returns the first of the fused documents in fused order: scores are sums of
      contributions, content is that of the hit that counts, and whoever is left out comes behind. */
  lemma TwoIndexesAreFused(plan: QueryPlan, vec: seq<Hit>, fts: seq<Hit>, ws: real, wk: real, n: nat)
    requires Vector in plan.targets && FullText in plan.targets
    requires IsWeight(plan, "semantic_weight", ws) && IsWeight(plan, "keyword_weight", wk)
    requires n < |ItemsOf(plan, vec, fts)|
    ensures var items := ItemsOf(plan, vec, fts); var x := items[n];
      && |items| <= plan.finalK
      && x.score == ListScore(Ids(vec), ws, RRF_K, x.id) + ListScore(Ids(fts), wk, RRF_K, x.id)
      && (exists h :: IsSource(vec, fts, x.id, h) && x.content == h.content)
      && forall d :: (d in Ids(vec) || d in Ids(fts)) && d != x.id ==>
           (Leads(vec, fts, ws, wk, d, x.id) <==> exists m :: 0 <= m < n && items[m].id == d)
  {
    var a, b := Ids(vec), Ids(fts);
    var items, r := ItemsOf(plan, vec, fts), Fused([a, b], [ws, wk], RRF_K);
    assert Ranked(plan, vec, fts) == r;
    FusedMembers([a, b], [ws, wk], RRF_K, r[n]);
    assert r[n] in r;
    Score2Splits(a, b, ws, wk, r[n].0);
    assert r[n].0 in a || r[n].0 in b by {
      var l :| 0 <= l < 2 && r[n].0 in [a, b][l];
    }
    SourceIsFound(vec, fts, r[n].0);
    forall d | (d in a || d in b) && d != r[n].0
      ensures Leads(vec, fts, ws, wk, d, r[n].0) <==> exists m :: 0 <= m < n && items[m].id == d
    {
      WinnersComeFirst(a, b, ws, wk, n, d);
      assert forall m :: 0 <= m < n ==> items[m].id == Names(r, n)[m];
    }
  }

  /** A document of either index is left out only if finalK others are returned. */
  lemma OnlyTheLimitLeavesOut(plan: QueryPlan, vec: seq<Hit>, fts: seq<Hit>, d: string)
    requires Vector in plan.targets && FullText in plan.targets && (d in Ids(vec) || d in Ids(fts))
    ensures var items := ItemsOf(plan, vec, fts);
      |items| == plan.finalK || exists m :: 0 <= m < |items| && items[m].id == d
  {
    var lists, ws := [Ids(vec), Ids(fts)], [WeightOr(plan, "semantic_weight"), WeightOr(plan, "keyword_weight")];
    var r := Fused(lists, ws, RRF_K);
    assert Occurs(lists, d) by { assert d in lists[0] || d in lists[1]; }
    FusedMembers(lists, ws, RRF_K, Entry(lists, ws, RRF_K, d));
    var m :| 0 <= m < |r| && r[m] == Entry(lists, ws, RRF_K, d);
    if |r| <= plan.finalK { assert ItemsOf(plan, vec, fts)[m].id == d; }
  }

  // ---------------------------------------------------------------- by mode

  /** Only a graph search without a graph index is refused. Everything else returns at most the requested
      number, ten if none is requested, and asks each index for at least twenty and three times that. */
  lemma RequestedKBounds(mode: Mode, k: nat, w: SearchWeights, graph: bool, vec: seq<Hit>, fts: seq<Hit>)
    ensures Plan(mode, k, w, graph).Err? <==> mode.Graph? && !graph
    ensures Plan(mode, k, w, graph).Ok? ==> var plan := Plan(mode, k, w, graph).value;
      && |ItemsOf(plan, vec, fts)| <= (if k == 0 then 10 else k)
      && plan.kPerIndex >= 20 && plan.kPerIndex >= 3 * plan.finalK && (plan.kPerIndex == 20 || plan.kPerIndex == 3 * plan.finalK)
      && plan.finalK == (if k == 0 then 10 else k)
      && (plan.rerank <==> mode.Quality?)
  {
  }

  /** A semantic search returns the first vector hits and a keyword search the first full-text hits,
      whatever the other index would answer. */
  lemma SingleIndexModes(k: nat, w: SearchWeights, graph: bool, vec: seq<Hit>, fts: seq<Hit>)
    ensures var plan := Plan(SemanticMode, k, w, graph).value;
      IsOwnOrder(ItemsOf(plan, vec, fts), vec, vec, [], if k == 0 then 10 else k)
    ensures var plan := Plan(Keyword, k, w, graph).value;
      IsOwnOrder(ItemsOf(plan, vec, fts), fts, [], fts, if k == 0 then 10 else k)
    ensures forall other :: ItemsOf(Plan(SemanticMode, k, w, graph).value, vec, other)
                         == ItemsOf(Plan(SemanticMode, k, w, graph).value, vec, fts)
    ensures forall other :: ItemsOf(Plan(Keyword, k, w, graph).value, other, fts)
                         == ItemsOf(Plan(Keyword, k, w, graph).value, vec, fts)
  {
    OneIndexKeepsItsOrder(Plan(SemanticMode, k, w, graph).value, vec, fts);
    OneIndexKeepsItsOrder(Plan(Keyword, k, w, graph).value, vec, fts);
  }

  lemma SameFusion(plan: QueryPlan, other: QueryPlan, vec: seq<Hit>, fts: seq<Hit>)
    requires Vector in plan.targets && FullText in plan.targets && Vector in other.targets && FullText in other.targets
    requires plan.finalK == other.finalK
    requires WeightOr(plan, "semantic_weight") == WeightOr(other, "semantic_weight")
    requires WeightOr(plan, "keyword_weight") == WeightOr(other, "keyword_weight")
    ensures ItemsOf(plan, vec, fts) == ItemsOf(other, vec, fts)
  {
    assert Ranked(plan, vec, fts) == Ranked(other, vec, fts);
  }

  /** Temporal and quality searches fuse the same two lists with the same weights as a hybrid search, so
      they return the same items. */
  lemma FusingModesAgree(mode: Mode, k: nat, w: SearchWeights, graph: bool, vec: seq<Hit>, fts: seq<Hit>)
    requires mode in {Hybrid, HybridTemporal, Quality}
    ensures var hybrid, plan := Plan(Hybrid, k, w, graph).value, Plan(mode, k, w, graph).value;
      && ItemsOf(plan, vec, fts) == ItemsOf(hybrid, vec, fts)
      && Vector in plan.targets && FullText in plan.targets
      && IsWeight(plan, "semantic_weight", w.semantic) && IsWeight(plan, "keyword_weight", w.keyword)
  {
    SameFusion(Plan(mode, k, w, graph).value, Plan(Hybrid, k, w, graph).value, vec, fts);
  }

  /** Nothing reads the graph index, so a graph search that is not refused returns nothing. */
  lemma GraphSearchIsEmpty(k: nat, w: SearchWeights, vec: seq<Hit>, fts: seq<Hit>)
    ensures Plan(Graph, k, w, true).Ok? && ItemsOf(Plan(Graph, k, w, true).value, vec, fts) == []
  {
    assert Ranked(Plan(Graph, k, w, true).value, vec, fts) == [];
  }
}
