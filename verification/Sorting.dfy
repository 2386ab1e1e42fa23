/** Python's sorted(items, key=score, reverse=True): descending by score, equal scores in their
    original order. */
module Sorting {

  type Scored = (string, real)

  ghost predicate DistinctItems(s: seq<Scored>) {
    forall i, j :: 0 <= i < j < |s| ==> s[i].0 != s[j].0
  }

  /** x stands before y. */
  ghost predicate Before(s: seq<Scored>, x: Scored, y: Scored) {
    exists i, j :: 0 <= i < j < |s| && s[i] == x && s[j] == y
  }

  ghost predicate Descending(s: seq<Scored>) {
    forall i, j :: 0 <= i < j < |s| ==> s[i].1 >= s[j].1
  }

  /** Where x goes in a descending list: behind everything that scores at least as much. */
  function Slot(s: seq<Scored>, x: Scored): (k: nat)
    ensures k <= |s|
    ensures forall i :: 0 <= i < k ==> s[i].1 >= x.1
    ensures k < |s| ==> s[k].1 < x.1
  {
    if s == [] || s[0].1 < x.1 then 0 else 1 + Slot(s[1..], x)
  }

  function InsertAt(s: seq<Scored>, k: nat, z: Scored): (r: seq<Scored>)
    requires k <= |s|
    ensures |r| == |s| + 1 && r[k] == z
    ensures forall i :: 0 <= i < k ==> r[i] == s[i]
    ensures forall i :: k <= i < |s| ==> r[i + 1] == s[i]
  {
    seq(|s| + 1, i requires 0 <= i <= |s| => if i < k then s[i] else if i == k then z else s[i - 1])
  }

  function SortDescending(s: seq<Scored>): (r: seq<Scored>)
    ensures |r| == |s|
  {
    if s == [] then []
    else
      var n := |s| - 1;
      var rest := SortDescending(s[..n]);
      InsertAt(rest, Slot(rest, s[n]), s[n])
  }

  lemma LastAddsOne(s: seq<Scored>)
    requires s != []
    ensures multiset(s) == multiset(s[..|s| - 1]) + multiset{s[|s| - 1]}
  {
    assert s == s[..|s| - 1] + [s[|s| - 1]];
  }

  lemma {:induction false} SortIsPermutation(s: seq<Scored>)
    ensures multiset(SortDescending(s)) == multiset(s)
  {
    if s != [] {
      var n := |s| - 1;
      var rest := SortDescending(s[..n]);
      SortIsPermutation(s[..n]);
      InsertAddsOne(rest, Slot(rest, s[n]), s[n]);
      LastAddsOne(s);
    }
  }

  lemma InsertAddsOne(s: seq<Scored>, k: nat, z: Scored)
    requires k <= |s|
    ensures multiset(InsertAt(s, k, z)) == multiset(s) + multiset{z}
  {
    assert s == s[..k] + s[k..];
    assert InsertAt(s, k, z) == s[..k] + [z] + s[k..];
  }

  lemma SortKeepsMembers(s: seq<Scored>)
    ensures forall x :: x in SortDescending(s) <==> x in s
  {
    SortIsPermutation(s);
    forall x ensures x in SortDescending(s) <==> x in s {
      assert x in SortDescending(s) <==> x in multiset(SortDescending(s));
      assert x in s <==> x in multiset(s);
    }
  }

  lemma {:induction false} SortIsDescending(s: seq<Scored>)
    ensures Descending(SortDescending(s))
  {
    if s != [] {
      var n := |s| - 1;
      var rest := SortDescending(s[..n]);
      SortIsDescending(s[..n]);
      InsertStaysDescending(rest, s[n]);
      assert SortDescending(s) == InsertAt(rest, Slot(rest, s[n]), s[n]);
    }
  }

  lemma InsertStaysDescending(rest: seq<Scored>, z: Scored)
    requires Descending(rest)
    ensures Descending(InsertAt(rest, Slot(rest, z), z))
  {
    var k := Slot(rest, z);
    var r := InsertAt(rest, k, z);
    forall i, j | 0 <= i < j < |r| ensures r[i].1 >= r[j].1 {
      assert j > k ==> r[j] == rest[j - 1];
      assert i > k ==> r[i] == rest[i - 1];
    }
  }

  lemma {:induction false} StaysDistinct(s: seq<Scored>)
    requires DistinctItems(s)
    ensures DistinctItems(SortDescending(s))
  {
    if s != [] {
      var n := |s| - 1;
      var rest := SortDescending(s[..n]);
      StaysDistinct(s[..n]);
      SortKeepsMembers(s[..n]);
      forall i | 0 <= i < |rest| ensures rest[i].0 != s[n].0 {
        assert rest[i] in s[..n];
      }
      InsertStaysDistinct(rest, Slot(rest, s[n]), s[n]);
    }
  }

  lemma InsertStaysDistinct(rest: seq<Scored>, k: nat, z: Scored)
    requires k <= |rest| && DistinctItems(rest) && forall i :: 0 <= i < |rest| ==> rest[i].0 != z.0
    ensures DistinctItems(InsertAt(rest, k, z))
  {
    var r := InsertAt(rest, k, z);
    forall i, j | 0 <= i < j < |r| ensures r[i].0 != r[j].0 {
      assert j > k ==> r[j] == rest[j - 1];
      assert i > k ==> r[i] == rest[i - 1];
    }
  }

  /** In a list of distinct items two different members stand in exactly one order. */
  lemma OneOrder(s: seq<Scored>, x: Scored, y: Scored)
    requires DistinctItems(s) && x in s && y in s && x != y
    ensures Before(s, x, y) <==> !Before(s, y, x)
  {
    var i :| 0 <= i < |s| && s[i] == x;
    var j :| 0 <= j < |s| && s[j] == y;
    if i < j { assert Before(s, x, y); } else { assert Before(s, y, x); }
  }

  lemma InsertShiftsIndex(s: seq<Scored>, k: nat, z: Scored, i: nat)
    requires k <= |s| && i < |s|
    ensures InsertAt(s, k, z)[if i < k then i else i + 1] == s[i]
  {
  }

  lemma OrderSurvivesInsert(s: seq<Scored>, k: nat, z: Scored, x: Scored, y: Scored)
    requires k <= |s| && Before(s, x, y)
    ensures Before(InsertAt(s, k, z), x, y)
  {
    var i, j :| 0 <= i < j < |s| && s[i] == x && s[j] == y;
    InsertShiftsIndex(s, k, z, i);
    InsertShiftsIndex(s, k, z, j);
  }

  lemma InsertKeepsOrder(s: seq<Scored>, k: nat, z: Scored, x: Scored, y: Scored)
    requires k <= |s| && x != z && y != z && x != y && x in s && y in s
    requires DistinctItems(s) && DistinctItems(InsertAt(s, k, z))
    ensures Before(InsertAt(s, k, z), x, y) <==> Before(s, x, y)
  {
    OneOrder(s, x, y);
    if Before(s, x, y) {
      OrderSurvivesInsert(s, k, z, x, y);
    } else {
      OrderSurvivesInsert(s, k, z, y, x);
      BeforeMeansMember(InsertAt(s, k, z), y, x);
      OneOrder(InsertAt(s, k, z), x, y);
    }
  }

  lemma BeforeMeansMember(s: seq<Scored>, x: Scored, y: Scored)
    requires Before(s, x, y)
    ensures x in s && y in s
  {
  }

  lemma InsertedBehind(rest: seq<Scored>, z: Scored, j: nat)
    requires DistinctItems(rest) && forall i :: 0 <= i < |rest| ==> rest[i].0 != z.0
    requires j < Slot(rest, z) && j < |rest|
    ensures !Before(InsertAt(rest, Slot(rest, z), z), z, rest[j]) && rest[j].1 >= z.1
  {
    var k := Slot(rest, z);
    var r := InsertAt(rest, k, z);
    InsertStaysDistinct(rest, k, z);
    assert r[j] == rest[j] && r[k] == z;
    assert Before(r, rest[j], z);
    BeforeMeansMember(r, rest[j], z);
    OneOrder(r, rest[j], z);
  }

  lemma InsertedAhead(rest: seq<Scored>, z: Scored, j: nat)
    requires Descending(rest) && Slot(rest, z) <= j < |rest|
    ensures Before(InsertAt(rest, Slot(rest, z), z), z, rest[j]) && rest[j].1 < z.1
  {
    var k := Slot(rest, z);
    var r := InsertAt(rest, k, z);
    assert r[j + 1] == rest[j] && r[k] == z;
    assert rest[k].1 >= rest[j].1;
  }

  /** The item just inserted stands before y exactly when y scores less. */
  lemma InsertedOrder(rest: seq<Scored>, z: Scored, y: Scored)
    requires Descending(rest) && DistinctItems(rest) && y in rest && z.0 != y.0
    requires forall i :: 0 <= i < |rest| ==> rest[i].0 != z.0
    ensures Before(InsertAt(rest, Slot(rest, z), z), z, y) <==> z.1 > y.1
  {
    var k := Slot(rest, z);
    var j :| 0 <= j < |rest| && rest[j] == y;
    if j < k {
      InsertedBehind(rest, z, j);
    } else {
      InsertedAhead(rest, z, j);
    }
  }

  /** What is known of the sorted rest when the last item goes in. */
  lemma BeforeInsertion(s: seq<Scored>) returns (rest: seq<Scored>)
    requires s != [] && DistinctItems(s)
    ensures var n := |s| - 1;
      && rest == SortDescending(s[..n]) && DistinctItems(s[..n]) && DistinctItems(rest) && Descending(rest)
      && (forall x :: x in rest <==> x in s[..n])
      && (forall i :: 0 <= i < |rest| ==> rest[i].0 != s[n].0)
      && SortDescending(s) == InsertAt(rest, Slot(rest, s[n]), s[n])
  {
    var n := |s| - 1;
    rest := SortDescending(s[..n]);
    StaysDistinct(s[..n]);
    SortIsDescending(s[..n]);
    SortKeepsMembers(s[..n]);
    forall i | 0 <= i < |rest| ensures rest[i].0 != s[n].0 {
      assert rest[i] in s[..n];
    }
  }

  /** The order of the last item relative to an earlier one. */
  lemma SortOrderOfLast(s: seq<Scored>, y: Scored)
    requires s != [] && DistinctItems(s) && y in s[..|s| - 1]
    ensures var z := s[|s| - 1];
      && (Before(SortDescending(s), z, y) <==> z.1 > y.1)
      && (Before(SortDescending(s), y, z) <==> !(z.1 > y.1))
  {
    var z := s[|s| - 1];
    var rest := BeforeInsertion(s);
    InsertedOrder(rest, z, y);
    StaysDistinct(s);
    SortKeepsMembers(s);
    assert y in s && z in s && y != z;
    OneOrder(SortDescending(s), z, y);
  }

  /** Two earlier items keep the order they had before the last one went in. */
  lemma SortOrderOfRest(s: seq<Scored>, x: Scored, y: Scored)
    requires s != [] && DistinctItems(s) && x in s[..|s| - 1] && y in s[..|s| - 1] && x != y
    ensures Before(SortDescending(s), x, y) <==> Before(SortDescending(s[..|s| - 1]), x, y)
  {
    var n := |s| - 1;
    var rest := BeforeInsertion(s);
    StaysDistinct(s);
    InsertKeepsOrder(rest, Slot(rest, s[n]), s[n], x, y);
  }

  lemma PrefixKeepsOrder(s: seq<Scored>, x: Scored, y: Scored)
    requires s != [] && DistinctItems(s) && x in s[..|s| - 1] && y in s[..|s| - 1] && x != y
    ensures Before(s, x, y) <==> Before(s[..|s| - 1], x, y)
  {
    var p := s[..|s| - 1];
    if i, j :| 0 <= i < j < |p| && p[i] == x && p[j] == y {
      assert s[i] == x && s[j] == y;
    } else {
      OneOrder(p, x, y);
      var i, j :| 0 <= i < j < |p| && p[i] == y && p[j] == x;
      assert s[i] == y && s[j] == x;
      assert Before(s, y, x);
      OneOrder(s, x, y);
    }
  }

  /** The whole specification of the sort, for items with distinct names: who comes before whom. */
  lemma {:induction false} SortOrder(s: seq<Scored>, x: Scored, y: Scored)
    requires DistinctItems(s) && x in s && y in s && x.0 != y.0
    ensures Before(SortDescending(s), x, y) <==> x.1 > y.1 || (x.1 == y.1 && Before(s, x, y))
  {
    var n := |s| - 1;
    assert forall z :: z in s && z != s[n] ==> z in s[..n];
    if x != s[n] && y != s[n] {
      SortOrder(s[..n], x, y);
      SortOrderOfRest(s, x, y);
      PrefixKeepsOrder(s, x, y);
    } else if x == s[n] {
      SortOrderOfLast(s, y);
      LastIsBehind(s, y);
    } else {
      SortOrderOfLast(s, x);
      LastIsBehind(s, x);
    }
  }

  lemma LastIsBehind(s: seq<Scored>, y: Scored)
    requires DistinctItems(s) && y in s && y != s[|s| - 1]
    ensures Before(s, y, s[|s| - 1]) && !Before(s, s[|s| - 1], y)
  {
    var j :| 0 <= j < |s| && s[j] == y;
    assert Before(s, y, s[|s| - 1]);
    OneOrder(s, y, s[|s| - 1]);
  }
}
