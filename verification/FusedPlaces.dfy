/** Places in the fusion of two rankings: who stands before whom, ties included, and which documents
    are among the first k. */
module FusedPlaces {
  import opened Domain
  import opened Sorting
  import opened Fusion
  import opened OverFetch
  import Sql

  /** x is one of the first k of the fusion. */
  ghost predicate InTop(a: seq<string>, b: seq<string>, wa: real, wb: real, k: nat, x: string) {
    var r := Fused([a, b], [wa, wb], RRF_K);
    exists n :: 0 <= n < k && n < |r| && r[n].0 == x
  }

  // ---------------------------------------------------------------- first seen

  function IndexOf(list: seq<string>, d: string): (i: nat)
    requires d in list
    ensures i < |list| && list[i] == d
  {
    if list[|list| - 1] == d then |list| - 1 else IndexOf(list[..|list| - 1], d)
  }

  lemma IndexIsUnique(list: seq<string>, i: nat)
    requires DuplicateFree(list) && i < |list|
    ensures IndexOf(list, list[i]) == i
  {
  }

  /** Where a document is met first when the first ranking is read before the second. */
  function Place(a: seq<string>, b: seq<string>, d: string): nat
    requires d in a || d in b
  {
    if d in a then IndexOf(a, d) else |a| + IndexOf(b, d)
  }

  lemma {:induction false} SeenGrows(seen: seq<string>, list: seq<string>)
    ensures seen <= SeenInList(seen, list)
  {
    if list != [] { SeenGrows(seen, list[..|list| - 1]); }
  }

  lemma {:induction false} SeenOfOne(list: seq<string>)
    requires DuplicateFree(list)
    ensures SeenInList([], list) == list
  {
    if list != [] {
      var n := |list| - 1;
      SeenOfOne(list[..n]);
      assert list == list[..n] + [list[n]];
    }
  }

  lemma OrderIsKept(s: seq<string>, s': seq<string>, d: string, e: string)
    requires s <= s' && Precedes(s, d, e)
    ensures Precedes(s', d, e)
  {
    var i, j :| 0 <= i < j < |s| && s[i] == d && s[j] == e;
    assert s'[i] == d && s'[j] == e;
  }

  lemma NewcomerIsLast(s: seq<string>, d: string, e: string)
    requires d in s && e !in s
    ensures Precedes(AddSeen(s, e), d, e)
  {
    var i :| 0 <= i < |s| && s[i] == d;
    var s' := AddSeen(s, e);
    assert s'[i] == d && s'[|s|] == e;
  }

  /** A list adds its unseen documents in its own order, behind what was seen. */
  lemma {:induction false} AddedInOrder(seen: seq<string>, list: seq<string>, d: string, j: nat)
    requires DuplicateFree(list) && j < |list| && list[j] !in seen
    requires d in seen || exists i :: 0 <= i < j && list[i] == d
    ensures Precedes(SeenInList(seen, list), d, list[j])
  {
    var n := |list| - 1;
    var before := SeenInList(seen, list[..n]);
    SeenInListHas(seen, list[..n]);
    if j == n {
      assert d in before by {
        if i :| 0 <= i < j && list[i] == d { assert list[..n][i] == d; }
      }
      assert list[j] !in list[..n];
      NewcomerIsLast(before, d, list[j]);
    } else {
      if i :| 0 <= i < j && list[i] == d { assert list[..n][i] == d; }
      AddedInOrder(seen, list[..n], d, j);
      OrderIsKept(before, SeenInList(seen, list), d, list[j]);
    }
  }

  lemma SeenOfTwo(a: seq<string>, b: seq<string>)
    requires DuplicateFree(a)
    ensures Seen([a, b]) == SeenInList(a, b)
  {
    SeenOfOne(a);
    assert [a][..0] == [] && Seen([]) == [];
    assert Seen([a]) == SeenInList([], a);
    assert [a, b][..1] == [a];
  }

  lemma EarlierPlaceIsSeenFirst(a: seq<string>, b: seq<string>, d: string, e: string)
    requires DuplicateFree(a) && DuplicateFree(b) && (d in a || d in b) && (e in a || e in b)
    requires Place(a, b, d) < Place(a, b, e)
    ensures FirstSeenBefore([a, b], d, e)
  {
    SeenOfTwo(a, b);
    SeenGrows(a, b);
    if e in a {
      assert Precedes(a, d, e);
      OrderIsKept(a, SeenInList(a, b), d, e);
    } else {
      AddedInOrder(a, b, d, IndexOf(b, e));
    }
  }

  /** Which of two documents the fusion saw first is a matter of their places. */
  lemma SeenFirstIff(a: seq<string>, b: seq<string>, d: string, e: string)
    requires DuplicateFree(a) && DuplicateFree(b) && (d in a || d in b) && (e in a || e in b) && d != e
    ensures FirstSeenBefore([a, b], d, e) <==> Place(a, b, d) < Place(a, b, e)
  {
    SeenHas([a, b]);
    if Place(a, b, d) < Place(a, b, e) {
      EarlierPlaceIsSeenFirst(a, b, d, e);
    } else {
      assert Place(a, b, d) != Place(a, b, e);
      EarlierPlaceIsSeenFirst(a, b, e, d);
    }
  }

  // ---------------------------------------------------------------- who stands before whom

  /** y stands before x in the fusion. */
  ghost predicate Wins(a: seq<string>, b: seq<string>, wa: real, wb: real, y: string, x: string) {
    || Score2(a, b, wa, wb, y) > Score2(a, b, wa, wb, x)
    || (Score2(a, b, wa, wb, y) == Score2(a, b, wa, wb, x) && FirstSeenBefore([a, b], y, x))
  }

  function Names(r: seq<Scored>, n: nat): (s: seq<string>)
    requires n <= |r|
    ensures |s| == n && forall i :: 0 <= i < n ==> s[i] == r[i].0
  {
    seq(n, i requires 0 <= i < n => r[i].0)
  }

  /** The documents before place n of the fusion are exactly those that win against the one there. */
  lemma WinnersComeFirst(a: seq<string>, b: seq<string>, wa: real, wb: real, n: nat, y: string)
    requires n < |Fused([a, b], [wa, wb], RRF_K)| && (y in a || y in b)
    requires y != Fused([a, b], [wa, wb], RRF_K)[n].0
    ensures var r := Fused([a, b], [wa, wb], RRF_K);
      Wins(a, b, wa, wb, y, r[n].0) <==> y in Names(r, n)
  {
    var lists, ws := [a, b], [wa, wb];
    var r := Fused(lists, ws, RRF_K);
    var x := r[n].0;
    FusedMembers(lists, ws, RRF_K, r[n]);
    assert r[n] in r && r[n] == Entry(lists, ws, RRF_K, x);
    assert Occurs(lists, y) by { assert y in lists[0] || y in lists[1]; }
    FusedOrder(lists, ws, RRF_K, y, x);
    if Wins(a, b, wa, wb, y, x) {
      var i, j :| 0 <= i < j < |r| && r[i] == Entry(lists, ws, RRF_K, y) && r[j] == r[n];
      assert j == n && Names(r, n)[i] == y;
    }
    if y in Names(r, n) {
      var i :| 0 <= i < n && Names(r, n)[i] == y;
      FusedMembers(lists, ws, RRF_K, r[i]);
      assert r[i] in r && r[i] == Entry(lists, ws, RRF_K, y);
    }
  }

  lemma NamesAreDistinct(a: seq<string>, b: seq<string>, wa: real, wb: real, n: nat)
    requires n <= |Fused([a, b], [wa, wb], RRF_K)|
    ensures |set y | y in Names(Fused([a, b], [wa, wb], RRF_K), n)| == n
    ensures forall y :: y in Names(Fused([a, b], [wa, wb], RRF_K), n) ==> y in a || y in b
  {
    var lists, ws := [a, b], [wa, wb];
    var r := Fused(lists, ws, RRF_K);
    FusedMembers(lists, ws, RRF_K, ("", 0.0));
    Sql.DistinctCount(Names(r, n));
    forall y | y in Names(r, n) ensures y in a || y in b {
      var i :| 0 <= i < n && Names(r, n)[i] == y;
      FusedMembers(lists, ws, RRF_K, r[i]);
      assert r[i] in r && Occurs(lists, y);
      var l :| 0 <= l < 2 && y in lists[l];
    }
  }

  /** With k winners against it a document is not among the first k. */
  lemma ManyWinnersKeepOut(a: seq<string>, b: seq<string>, wa: real, wb: real, k: nat, x: string, better: set<string>)
    requires forall y :: y in better ==> (y in a || y in b) && y != x && Wins(a, b, wa, wb, y, x)
    requires |better| >= k
    ensures !InTop(a, b, wa, wb, k, x)
  {
    var r := Fused([a, b], [wa, wb], RRF_K);
    if n :| 0 <= n < k && n < |r| && r[n].0 == x {
      forall y | y in better ensures y in Names(r, n) { WinnersComeFirst(a, b, wa, wb, n, y); }
      NamesAreDistinct(a, b, wa, wb, n);
      Sql.Subset(better, set y | y in Names(r, n));
      assert false;
    }
  }

  /** A document that fewer than k others win against is among the first k. */
  lemma FewWinnersLetIn(a: seq<string>, b: seq<string>, wa: real, wb: real, k: nat, x: string, rivals: set<string>)
    requires x in a || x in b
    requires forall y :: (y in a || y in b) && y != x && Wins(a, b, wa, wb, y, x) ==> y in rivals
    requires |rivals| < k
    ensures InTop(a, b, wa, wb, k, x)
  {
    var lists, ws := [a, b], [wa, wb];
    var r := Fused(lists, ws, RRF_K);
    assert Occurs(lists, x) by { assert x in lists[0] || x in lists[1]; }
    FusedMembers(lists, ws, RRF_K, Entry(lists, ws, RRF_K, x));
    var n :| 0 <= n < |r| && r[n] == Entry(lists, ws, RRF_K, x);
    NamesAreDistinct(a, b, wa, wb, n);
    forall y | y in Names(r, n) ensures y in rivals {
      var i :| 0 <= i < n && Names(r, n)[i] == y;
      assert y != x;
      WinnersComeFirst(a, b, wa, wb, n, y);
    }
    Sql.Subset((set y | y in Names(r, n)), rivals);
    assert r[n].0 == x;
  }

  lemma TopIsAMember(a: seq<string>, b: seq<string>, wa: real, wb: real, k: nat, x: string)
    requires InTop(a, b, wa, wb, k, x)
    ensures x in a || x in b
  {
    var r := Fused([a, b], [wa, wb], RRF_K);
    var n :| 0 <= n < k && n < |r| && r[n].0 == x;
    NamesAreDistinct(a, b, wa, wb, n + 1);
    assert Names(r, n + 1)[n] == x;
  }
}
