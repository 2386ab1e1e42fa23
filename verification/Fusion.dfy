/** Reciprocal rank fusion. Scores are exact reals. */
module Fusion {
  import opened Domain
  import opened Sorting

  function Contribution(w: real, k: nat, rank: nat): real {
    w / (k + rank + 1) as real
  }

  // ---------------------------------------------------------------- the definition

  /** The sum of an id's contributions over its occurrences in one list. */
  function ListScore(list: seq<string>, w: real, k: nat, id: string): real {
    if list == [] then 0.0
    else
      var n := |list| - 1;
      ListScore(list[..n], w, k, id) + if list[n] == id then Contribution(w, k, n) else 0.0
  }

  /** The sum over all lists. */
  function Score(lists: seq<seq<string>>, ws: seq<real>, k: nat, id: string): real
    requires |lists| == |ws|
  {
    if lists == [] then 0.0
    else
      var n := |lists| - 1;
      Score(lists[..n], ws[..n], k, id) + ListScore(lists[n], ws[n], k, id)
  }

  function AddSeen(seen: seq<string>, id: string): seq<string> {
    if id in seen then seen else seen + [id]
  }

  function SeenInList(seen: seq<string>, list: seq<string>): seq<string> {
    if list == [] then seen else AddSeen(SeenInList(seen, list[..|list| - 1]), list[|list| - 1])
  }

  /** The distinct ids in the order of their first occurrence. */
  function Seen(lists: seq<seq<string>>): seq<string> {
    if lists == [] then [] else SeenInList(Seen(lists[..|lists| - 1]), lists[|lists| - 1])
  }

  /** Every distinct id with its score, in first-seen order. */
  function FusionTable(lists: seq<seq<string>>, ws: seq<real>, k: nat): (t: seq<Scored>)
    requires |lists| == |ws|
    ensures |t| == |Seen(lists)|
  {
    seq(|Seen(lists)|, i requires 0 <= i < |Seen(lists)| => (Seen(lists)[i], Score(lists, ws, k, Seen(lists)[i])))
  }

  function Fused(lists: seq<seq<string>>, ws: seq<real>, k: nat): seq<Scored>
    requires |lists| == |ws|
  {
    SortDescending(FusionTable(lists, ws, k))
  }

  // ---------------------------------------------------------------- the loops

  function Zipped(lists: seq<seq<string>>, ws: Option<seq<real>>): (n: nat)
    ensures n <= |lists| && (ws.Some? ==> n <= |ws.value|)
  {
    if ws.None? || |lists| <= |ws.value| then |lists| else |ws.value|
  }

  function Weights(lists: seq<seq<string>>, ws: Option<seq<real>>): (r: seq<real>)
    ensures |r| == Zipped(lists, ws)
  {
    if ws.None? then seq(|lists|, _ => 1.0) else ws.value[..Zipped(lists, ws)]
  }

  /** A Python dict is its keys in insertion order and the mapping. Lists and weights pair up as zip
      does: the longer one is cut. */
  method ReciprocalRankFusion(lists: seq<seq<string>>, weights: Option<seq<real>>, k: nat) returns (r: seq<Scored>)
    ensures r == Fused(lists[..Zipped(lists, weights)], Weights(lists, weights), k)
    ensures weights.None? ==>
      forall ws: seq<real> :: |ws| == |lists| && (forall i :: 0 <= i < |ws| ==> ws[i] == 1.0) ==> r == Fused(lists, ws, k)
    ensures weights.Some? && |weights.value| == |lists| ==> r == Fused(lists, weights.value, k)
  {
    var n := Zipped(lists, weights);
    var ws := Weights(lists, weights);
    var order: seq<string>, scores: map<string, real> := [], map[];
    for l := 0 to n
      invariant order == Seen(lists[..l])
      invariant IsDict(order, scores)
      invariant forall id :: id in scores ==> scores[id] == Score(lists[..l], ws[..l], k, id)
    {
      var list, w := lists[l], ws[l];
      for rank := 0 to |list|
        invariant order == SeenInList(Seen(lists[..l]), list[..rank])
        invariant IsDict(order, scores)
        invariant forall id :: id in scores ==>
          scores[id] == Score(lists[..l], ws[..l], k, id) + ListScore(list[..rank], w, k, id)
      {
        var mid := list[rank];
        assert list[..rank + 1][..rank] == list[..rank];
        if mid !in scores {
          UnseenScoresZero(lists[..l], ws[..l], k, list[..rank], w, mid);
        }
        scores := scores[mid := (if mid in scores then scores[mid] else 0.0) + Contribution(w, k, rank)];
        order := AddSeen(order, mid);
      }
      assert list[..|list|] == list;
      assert lists[..l + 1][..l] == lists[..l] && ws[..l + 1][..l] == ws[..l];
    }
    assert ws[..n] == ws;
    var items := seq(|order|, i requires 0 <= i < |order| && IsDict(order, scores) => (order[i], scores[order[i]]));
    assert items == FusionTable(lists[..n], ws, k);
    assert n == |lists| ==> lists[..n] == lists && (weights.Some? && |weights.value| == n ==> ws == weights.value);
    assert weights.None? ==> forall ones: seq<real> :: |ones| == n && (forall i :: 0 <= i < n ==> ones[i] == 1.0) ==> ones == ws;
    r := SortDescending(items);
  }

  predicate IsDict(order: seq<string>, scores: map<string, real>) {
    && (forall i :: 0 <= i < |order| ==> order[i] in scores)
    && (forall id :: id in scores ==> id in order)
  }

  lemma {:induction false} SeenInListHas(seen: seq<string>, list: seq<string>)
    ensures forall id :: id in SeenInList(seen, list) <==> id in seen || id in list
    ensures (forall i, j :: 0 <= i < j < |seen| ==> seen[i] != seen[j])
      ==> forall i, j :: 0 <= i < j < |SeenInList(seen, list)| ==> SeenInList(seen, list)[i] != SeenInList(seen, list)[j]
  {
    if list != [] {
      var n := |list| - 1;
      SeenInListHas(seen, list[..n]);
      assert list == list[..n] + [list[n]];
    }
  }

  ghost predicate Occurs(lists: seq<seq<string>>, id: string) {
    exists l :: 0 <= l < |lists| && id in lists[l]
  }

  lemma {:induction false} SeenHas(lists: seq<seq<string>>)
    ensures forall id :: id in Seen(lists) <==> Occurs(lists, id)
    ensures forall i, j :: 0 <= i < j < |Seen(lists)| ==> Seen(lists)[i] != Seen(lists)[j]
  {
    if lists != [] {
      var n := |lists| - 1;
      SeenHas(lists[..n]);
      SeenInListHas(Seen(lists[..n]), lists[n]);
      forall id ensures id in Seen(lists) <==> Occurs(lists, id) {
        if l :| 0 <= l < |lists| && id in lists[l] {
          assert l < n ==> id in lists[..n][l];
        }
      }
    }
  }

  lemma {:induction false} AbsentScoresZero(list: seq<string>, w: real, k: nat, id: string)
    requires id !in list
    ensures ListScore(list, w, k, id) == 0.0
  {
    if list != [] { AbsentScoresZero(list[..|list| - 1], w, k, id); }
  }

  lemma {:induction false} NowhereScoresZero(lists: seq<seq<string>>, ws: seq<real>, k: nat, id: string)
    requires |lists| == |ws| && !Occurs(lists, id)
    ensures Score(lists, ws, k, id) == 0.0
  {
    if lists != [] {
      var n := |lists| - 1;
      assert !Occurs(lists[..n], id) by {
        assert forall l :: 0 <= l < n ==> lists[..n][l] == lists[l];
      }
      NowhereScoresZero(lists[..n], ws[..n], k, id);
      assert id !in lists[n];
      AbsentScoresZero(lists[n], ws[n], k, id);
    }
  }

  lemma UnseenScoresZero(lists: seq<seq<string>>, ws: seq<real>, k: nat, part: seq<string>, w: real, id: string)
    requires |lists| == |ws| && id !in SeenInList(Seen(lists), part)
    ensures Score(lists, ws, k, id) == 0.0 && ListScore(part, w, k, id) == 0.0
  {
    SeenHas(lists);
    SeenInListHas(Seen(lists), part);
    NowhereScoresZero(lists, ws, k, id);
    AbsentScoresZero(part, w, k, id);
  }

  // ---------------------------------------------------------------- what the ranking means

  /** The result lists each distinct id once, with its score, in descending score and ties in
      first-seen order. */
  lemma FusedMembers(lists: seq<seq<string>>, ws: seq<real>, k: nat, x: Scored)
    requires |lists| == |ws|
    ensures x in Fused(lists, ws, k) <==> Occurs(lists, x.0) && x.1 == Score(lists, ws, k, x.0)
    ensures DistinctItems(FusionTable(lists, ws, k)) && DistinctItems(Fused(lists, ws, k))
  {
    SeenHas(lists);
    var t := FusionTable(lists, ws, k);
    StaysDistinct(t);
    SortKeepsMembers(t);
    if Occurs(lists, x.0) && x.1 == Score(lists, ws, k, x.0) {
      var i :| 0 <= i < |Seen(lists)| && Seen(lists)[i] == x.0;
      assert t[i] == x;
    }
  }

  function Entry(lists: seq<seq<string>>, ws: seq<real>, k: nat, id: string): Scored
    requires |lists| == |ws|
  {
    (id, Score(lists, ws, k, id))
  }

  ghost predicate FirstSeenBefore(lists: seq<seq<string>>, d: string, e: string) {
    exists i, j :: 0 <= i < j < |Seen(lists)| && Seen(lists)[i] == d && Seen(lists)[j] == e
  }

  lemma FusedOrder(lists: seq<seq<string>>, ws: seq<real>, k: nat, d: string, e: string)
    requires |lists| == |ws| && Occurs(lists, d) && Occurs(lists, e) && d != e
    ensures Before(Fused(lists, ws, k), Entry(lists, ws, k, d), Entry(lists, ws, k, e)) <==>
      || Score(lists, ws, k, d) > Score(lists, ws, k, e)
      || (Score(lists, ws, k, d) == Score(lists, ws, k, e) && FirstSeenBefore(lists, d, e))
  {
    var t, x, y := FusionTable(lists, ws, k), Entry(lists, ws, k, d), Entry(lists, ws, k, e);
    FusedMembers(lists, ws, k, x);
    FusedMembers(lists, ws, k, y);
    SortKeepsMembers(t);
    SortOrder(t, x, y);
    if FirstSeenBefore(lists, d, e) {
      var i, j :| 0 <= i < j < |Seen(lists)| && Seen(lists)[i] == d && Seen(lists)[j] == e;
      assert t[i] == x && t[j] == y;
    }
    if i, j :| 0 <= i < j < |t| && t[i] == x && t[j] == y {
      assert Seen(lists)[i] == d && Seen(lists)[j] == e;
    }
  }

  ghost predicate DuplicateFree(list: seq<string>) {
    forall i, j :: 0 <= i < j < |list| ==> list[i] != list[j]
  }

  lemma {:induction false} ScoreAtRank(list: seq<string>, w: real, k: nat, i: nat)
    requires DuplicateFree(list) && i < |list|
    ensures ListScore(list, w, k, list[i]) == Contribution(w, k, i)
  {
    var n := |list| - 1;
    if i == n {
      AbsentScoresZero(list[..n], w, k, list[n]);
    } else {
      ScoreAtRank(list[..n], w, k, i);
      assert list[..n][i] == list[i];
    }
  }

  lemma HigherRankContributesMore(w: real, k: nat, i: nat, j: nat)
    requires w > 0.0 && i < j
    ensures Contribution(w, k, i) > Contribution(w, k, j) > 0.0
  {
    var p, q := (k + i + 1) as real, (k + j + 1) as real;
    assert p * (w / p) == w && q * (w / q) == w;
    assert p < q;
    if w / p <= w / q {
      assert p * (w / p) <= p * (w / q) < q * (w / q);
    }
  }

  lemma ListScoreIsNotNegative(list: seq<string>, w: real, k: nat, id: string)
    requires w > 0.0
    ensures ListScore(list, w, k, id) >= 0.0
  {
  }

  /** d beats e within a list in which it does not come later. */
  lemma ListDominance(list: seq<string>, w: real, k: nat, d: string, e: string)
    requires DuplicateFree(list) && w > 0.0 && (e in list ==> Precedes(list, d, e))
    ensures ListScore(list, w, k, d) >= ListScore(list, w, k, e)
    ensures e in list ==> ListScore(list, w, k, d) > ListScore(list, w, k, e)
  {
    if e in list {
      var i, j :| 0 <= i < j < |list| && list[i] == d && list[j] == e;
      ScoreAtRank(list, w, k, i);
      ScoreAtRank(list, w, k, j);
      HigherRankContributesMore(w, k, i, j);
    } else {
      AbsentScoresZero(list, w, k, e);
      ListScoreIsNotNegative(list, w, k, d);
    }
  }

  ghost predicate Dominates(lists: seq<seq<string>>, ws: seq<real>, d: string, e: string) {
    && |lists| == |ws|
    && forall l :: 0 <= l < |lists| ==>
         DuplicateFree(lists[l]) && ws[l] > 0.0 && (e in lists[l] ==> Precedes(lists[l], d, e))
  }

  lemma {:induction false} DominanceScores(lists: seq<seq<string>>, ws: seq<real>, k: nat, d: string, e: string)
    requires Dominates(lists, ws, d, e)
    ensures Score(lists, ws, k, d) >= Score(lists, ws, k, e)
    ensures Occurs(lists, e) ==> Score(lists, ws, k, d) > Score(lists, ws, k, e)
  {
    if lists != [] {
      var n := |lists| - 1;
      DominanceScores(lists[..n], ws[..n], k, d, e);
      ListDominance(lists[n], ws[n], k, d, e);
      if Occurs(lists, e) && e !in lists[n] {
        var l :| 0 <= l < |lists| && e in lists[l];
        assert lists[..n][l] == lists[l];
      }
    }
  }

  /** A document that precedes another in every list holding the other precedes it in the result. */
  lemma DominanceIsPreserved(lists: seq<seq<string>>, ws: seq<real>, k: nat, d: string, e: string)
    requires Dominates(lists, ws, d, e) && Occurs(lists, e)
    ensures Before(Fused(lists, ws, k), Entry(lists, ws, k, d), Entry(lists, ws, k, e))
  {
    DominanceScores(lists, ws, k, d, e);
    var l :| 0 <= l < |lists| && e in lists[l];
    var i, j :| 0 <= i < j < |lists[l]| && lists[l][i] == d && lists[l][j] == e;
    assert Occurs(lists, d);
    FusedOrder(lists, ws, k, d, e);
  }
}
