/** SELECT ... ORDER BY recorded_at DESC LIMIT n, over the ids that a WHERE clause selected.
    Rows with equal timestamps come in no particular order. */
module Sql {

  ghost predicate IsNewestFirst(ids: set<string>, at: map<string, int>, limit: nat, out: seq<string>) {
    && ids <= at.Keys
    && (forall i :: 0 <= i < |out| ==> out[i] in ids)
    && (forall i, j :: 0 <= i < j < |out| ==> out[i] != out[j] && at[out[i]] >= at[out[j]])
    && |out| == (if |ids| <= limit then |ids| else limit)
    && (forall x, i :: x in ids && x !in out && 0 <= i < |out| ==> at[x] <= at[out[i]])
  }

  lemma NewestExists(ids: set<string>, at: map<string, int>) returns (m: string)
    requires ids != {} && ids <= at.Keys
    ensures m in ids && forall x :: x in ids ==> at[x] <= at[m]
  {
    m :| m in ids;
    var rest := ids - {m};
    assert forall x :: x in ids ==> x == m || x in rest;
    if rest != {} {
      var m' := NewestExists(rest, at);
      if at[m'] > at[m] { m := m'; }
    }
  }

  method NewestFirst(ids: set<string>, at: map<string, int>, limit: nat) returns (out: seq<string>)
    requires ids <= at.Keys
    ensures IsNewestFirst(ids, at, limit, out)
  {
    out := [];
    var rest := ids;
    while |out| < limit && rest != {}
      invariant |out| <= limit && rest <= ids && |out| + |rest| == |ids|
      invariant forall x :: x in ids <==> x in rest || x in out
      invariant forall i :: 0 <= i < |out| ==> out[i] !in rest
      invariant forall i, j :: 0 <= i < j < |out| ==> out[i] != out[j] && at[out[i]] >= at[out[j]]
      invariant forall x, i :: x in rest && 0 <= i < |out| ==> at[x] <= at[out[i]]
      decreases |rest|
    {
      ghost var newest := NewestExists(rest, at);
      var m :| m in rest && forall x :: x in rest ==> at[x] <= at[m];
      assert m !in out;
      out, rest := out + [m], rest - {m};
    }
  }

  /** A complete listing holds every selected id; an incomplete one is exactly as long as the limit. */
  lemma {:induction false} ListingCovers(ids: set<string>, at: map<string, int>, limit: nat, out: seq<string>)
    requires IsNewestFirst(ids, at, limit, out)
    ensures |ids| <= limit ==> forall x :: x in ids ==> x in out
  {
    var listed := set x | x in out;
    DistinctCount(out);
    if |ids| <= limit && !(ids <= listed) {
      var x :| x in ids && x !in listed;
      assert listed <= ids - {x};
      Subset(listed, ids - {x});
    }
  }

  lemma {:induction false} DistinctCount(s: seq<string>)
    requires forall i, j :: 0 <= i < j < |s| ==> s[i] != s[j]
    ensures |set x | x in s| == |s|
  {
    if s == [] {
      assert (set x | x in s) == {};
    } else {
      var n := |s| - 1;
      DistinctCount(s[..n]);
      assert s[n] !in s[..n];
      assert (set x | x in s) == (set x | x in s[..n]) + {s[n]};
    }
  }

  lemma {:induction false} Subset(a: set<string>, b: set<string>)
    requires a <= b
    ensures |a| <= |b|
  {
    if a != {} {
      var x :| x in a;
      Subset(a - {x}, b - {x});
    }
  }
}
