/** The query planner: which indexes a mode consults, with which weights, and how many hits to
    fetch from each. */
module Planner {
  import opened Domain

  datatype Mode = SemanticMode | Keyword | Hybrid | HybridTemporal | Quality | Graph

  datatype Target = Vector | FullText | GraphIndex | Temporal

  datatype PlanError = CapabilityNotAvailable

  datatype SearchWeights = SearchWeights(semantic: real, keyword: real, entity: real, recency: real)

  const DEFAULT_WEIGHTS := SearchWeights(0.5, 0.2, 0.15, 0.1)

  datatype QueryPlan = QueryPlan(
    mode: Mode,
    targets: seq<Target>,
    weights: map<string, real>,
    rerank: bool,
    kPerIndex: nat,
    finalK: nat)

  /** A requested k of zero falls back to ten. */
  function FinalK(k: nat): nat {
    if k == 0 then 10 else k
  }

  function PerIndex(finalK: nat): nat {
    if finalK * 3 > 20 then finalK * 3 else 20
  }

  function Plan(mode: Mode, k: nat, w: SearchWeights, graphAvailable: bool): Result<QueryPlan, PlanError> {
    var finalK := FinalK(k);
    var per := PerIndex(finalK);
    match mode
    case SemanticMode =>
      Ok(QueryPlan(mode, [Vector], map["semantic_weight" := w.semantic], false, per, finalK))
    case Keyword =>
      Ok(QueryPlan(mode, [FullText], map["keyword_weight" := w.keyword], false, per, finalK))
    case Hybrid =>
      Ok(QueryPlan(mode, [Vector, FullText],
                   map["semantic_weight" := w.semantic, "keyword_weight" := w.keyword], false, per, finalK))
    case HybridTemporal =>
      Ok(QueryPlan(mode, [Vector, FullText, Temporal],
                   map["semantic_weight" := w.semantic, "keyword_weight" := w.keyword, "recency_weight" := w.recency],
                   false, per, finalK))
    case Quality =>
      Ok(QueryPlan(mode, [Vector, FullText, Temporal],
                   map["semantic_weight" := w.semantic, "keyword_weight" := w.keyword, "recency_weight" := w.recency],
                   true, per, finalK))
    case Graph =>
      if graphAvailable
      then Ok(QueryPlan(mode, [GraphIndex], map["entity_weight" := w.entity], false, per, finalK))
      else Err(CapabilityNotAvailable)
  }
}
