/** Recall: taking search results into a context window of limited size. */
module Recall {
  import opened Domain
  import opened Retrieval

  datatype Status = Match | PartialMatch | NoMatch

  datatype Reason = NothingFound | BudgetTooSmall

  datatype RecallResult = RecallResult(status: Status, reason: Option<Reason>, items: seq<Item>, totalTokens: nat)

  /** One token per four characters, and one for a shorter text. */
  function EstimateTokens(text: string): (n: nat)
    ensures if |text| < 4 then n == 1 else 4 * n <= |text| < 4 * n + 4
  {
    if |text| / 4 > 1 then |text| / 4 else 1
  }

  function Tokens(items: seq<Item>): nat {
    if items == [] then 0 else Tokens(items[..|items| - 1]) + EstimateTokens(items[|items| - 1].content)
  }

  /** The first n items are within budget; no budget means no limit, and nothing at all always fits. */
  predicate Fits(items: seq<Item>, n: nat, budget: Option<int>)
    requires n <= |items|
  {
    n == 0 || budget.None? || Tokens(items[..n]) <= budget.value
  }

  /** n is the length of the longest prefix within budget. */
  ghost predicate IsLongestFit(items: seq<Item>, n: nat, budget: Option<int>) {
    && n <= |items| && Fits(items, n, budget)
    && forall m :: n < m <= |items| ==> !Fits(items, m, budget)
  }

  lemma {:induction false} TokensGrow(items: seq<Item>, m: nat, n: nat)
    requires m <= n <= |items|
    ensures Tokens(items[..m]) <= Tokens(items[..n])
    decreases n
  {
    if m < n {
      TokensGrow(items, m, n - 1);
      assert items[..n][..n - 1] == items[..n - 1];
    }
  }

  /** The characters of the contents. */
  function Characters(items: seq<Item>): nat {
    if items == [] then 0 else Characters(items[..|items| - 1]) + |items[|items| - 1].content|
  }

  /** The total is a quarter of the characters, short by less than one token per item, and never over
      unless some text is shorter than four characters. */
  lemma {:induction false} TotalIsAQuarter(items: seq<Item>)
    ensures 4 * Tokens(items) > Characters(items) - 4 * |items| || items == []
    ensures (forall i :: 0 <= i < |items| ==> |items[i].content| >= 4) ==> 4 * Tokens(items) <= Characters(items)
    ensures |items| <= Tokens(items)
  {
    if items != [] {
      var n := |items| - 1;
      TotalIsAQuarter(items[..n]);
      assert forall i :: 0 <= i < n ==> items[..n][i] == items[i];
    }
  }

  method Execute(hits: seq<Item>, maxItems: nat, maxTokens: Option<int>) returns (r: RecallResult)
    ensures var taken := Trimmed(hits, maxItems);
      && IsLongestFit(taken, |r.items|, maxTokens)
      && r.items == taken[..|r.items|]
      && r.totalTokens == Tokens(r.items)
      && (r.status == Match <==> r.items == taken && taken != [])
      && (r.status == PartialMatch <==> 0 < |r.items| < |taken|)
      && (r.status == NoMatch <==> r.items == [])
      && r.reason == (if hits == [] then Some(NothingFound) else if r.items == [] then Some(BudgetTooSmall) else None)
    ensures |r.items| <= maxItems && r.items <= hits
    ensures maxTokens.Some? && r.items != [] ==> r.totalTokens <= maxTokens.value
    ensures |r.items| < maxItems && |r.items| < |hits| ==>
      maxTokens.Some? && r.totalTokens + EstimateTokens(hits[|r.items|].content) > maxTokens.value
  {
    if hits == [] {
      return RecallResult(NoMatch, Some(NothingFound), [], 0);
    }
    var taken := Trimmed(hits, maxItems);
    var items: seq<Item>, totalTokens: nat, exhausted := [], 0, false;
    for i := 0 to |taken|
      invariant items == taken[..i] && totalTokens == Tokens(items) && !exhausted
      invariant Fits(taken, i, maxTokens)
    {
      var cost := EstimateTokens(taken[i].content);
      assert taken[..i + 1][..i] == taken[..i];
      assert Tokens(taken[..i + 1]) == totalTokens + cost;
      if maxTokens.Some? && totalTokens + cost > maxTokens.value {
        exhausted := true;
        assert taken[i] == hits[i];
        forall m | i < m <= |taken| ensures !Fits(taken, m, maxTokens) {
          TokensGrow(taken, i + 1, m);
        }
        break;
      }
      totalTokens := totalTokens + cost;
      items := items + [taken[i]];
    }
    if items == [] {
      return RecallResult(NoMatch, Some(BudgetTooSmall), [], 0);
    }
    r := RecallResult(if exhausted then PartialMatch else Match, None, items, totalTokens);
  }

  predicate AtMost(b: Option<int>, b': Option<int>) {
    b'.None? || (b.Some? && b.value <= b'.value)
  }

  /** A larger budget keeps everything a smaller one kept. */
  lemma RaisingTheBudgetExtends(items: seq<Item>, b: Option<int>, b': Option<int>, n: nat, n': nat)
    requires AtMost(b, b') && IsLongestFit(items, n, b) && IsLongestFit(items, n', b')
    ensures n <= n' && items[..n] <= items[..n']
  {
    assert Fits(items, n, b');
  }

  /** The longest fit is unique, so the contract of Execute determines its result. */
  lemma LongestFitIsUnique(items: seq<Item>, b: Option<int>, n: nat, n': nat)
    requires IsLongestFit(items, n, b) && IsLongestFit(items, n', b)
    ensures n == n'
  {
  }
}
