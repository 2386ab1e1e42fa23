/** The Chroma-backed vector index: tenants share collections, so naming, the where clause and the
    delete rule have to keep them apart. Characters are ASCII; what order the nearest-neighbour
    search returns is an arbitrary ranking. */
module VectorIndex {
  import opened Domain
  import Sql

  // ---------------------------------------------------------------- naming

  function Lower(c: char): char {
    if 'A' <= c <= 'Z' then (c as int + 32) as char else c
  }

  predicate IsLowerAlnum(c: char) {
    'a' <= c <= 'z' || '0' <= c <= '9'
  }

  function KeepAlnum(s: string): (r: string)
    ensures forall i :: 0 <= i < |r| ==> IsLowerAlnum(r[i])
  {
    if s == "" then ""
    else if IsLowerAlnum(Lower(s[0])) then [Lower(s[0])] + KeepAlnum(s[1..])
    else KeepAlnum(s[1..])
  }

  /** The first eight lower-case alphanumerics of the tenant id. */
  function TenantShort(tenant: string): (r: string)
    ensures |r| <= 8 && '_' !in r
  {
    var k := KeepAlnum(tenant);
    if |k| <= 8 then k else k[..8]
  }

  function Slug(model: string): string {
    seq(|model|, i requires 0 <= i < |model| =>
      if IsLowerAlnum(Lower(model[i])) then model[i] else '_')
  }

  const BASE := "memory_vectors_"

  function NameFrom(short: string, slug: string): string {
    BASE + (short + ("_" + slug))
  }

  function CollectionName(tenant: string, model: string): string {
    NameFrom(TenantShort(tenant), Slug(model))
  }

  function Prefix(tenant: string): string {
    BASE + (TenantShort(tenant) + "_")
  }

  /** The text continues, after the base, with the tenant part a and an underscore. */
  ghost predicate HasStem(text: string, a: string) {
    && |BASE| + |a| < |text|
    && text[|BASE|..][..|a|] == a
    && text[|BASE|..][|a|] == '_'
  }

  lemma StemIsUnique(text: string, a: string, b: string)
    requires '_' !in a && '_' !in b && HasStem(text, a) && HasStem(text, b)
    ensures a == b
  {
    var t := text[|BASE|..];
    assert forall i :: 0 <= i < |a| ==> t[i] == a[i] && a[i] != '_';
    assert forall i :: 0 <= i < |b| ==> t[i] == b[i] && b[i] != '_';
    assert |a| == |b|;
  }

  lemma NameHasStem(a: string, x: string)
    ensures HasStem(NameFrom(a, x), a)
    ensures NameFrom(a, x)[|BASE| + |a| + 1..] == x
    ensures NameFrom(a, x)[..|BASE| + |a| + 1] == BASE + (a + "_")
  {
    var rest := a + ("_" + x);
    assert rest == (a + "_") + x && rest[..|a|] == a && rest[|a|] == '_';
    assert NameFrom(a, x) == (BASE + (a + "_")) + x && NameFrom(a, x)[|BASE|..] == rest;
  }

  /** Underscore-free tenant parts are recovered from a name: two names agree exactly when both parts do. */
  lemma NamesAreInjective(a: string, b: string, x: string, y: string)
    requires '_' !in a && '_' !in b
    ensures NameFrom(a, x) == NameFrom(b, y) <==> a == b && x == y
  {
    NameHasStem(a, x);
    NameHasStem(b, y);
    if NameFrom(a, x) == NameFrom(b, y) {
      StemIsUnique(NameFrom(a, x), a, b);
    }
  }

  /** The delete prefix of a tenant matches exactly the collections with the same tenant part. */
  lemma PrefixMatchesTenantPart(tenant: string, other: string, model: string)
    ensures Prefix(tenant) <= CollectionName(other, model) <==> TenantShort(tenant) == TenantShort(other)
  {
    var a, b, name := TenantShort(tenant), TenantShort(other), CollectionName(other, model);
    NameHasStem(b, Slug(model));
    NameHasStem(a, "");
    assert Prefix(tenant) == NameFrom(a, "");
    if Prefix(tenant) <= name {
      assert name[|BASE|..][..|a| + 1] == Prefix(tenant)[|BASE|..];
      assert HasStem(name, a);
      StemIsUnique(name, a, b);
    }
  }

  lemma {:induction false} KeepAlnumJoins(a: string, b: string)
    ensures KeepAlnum(a + b) == KeepAlnum(a) + KeepAlnum(b)
  {
    if a == "" {
      assert a + b == b;
    } else {
      assert (a + b)[1..] == a[1..] + b;
      KeepAlnumJoins(a[1..], b);
    }
  }

  lemma {:induction false} AlnumsAreKept(p: string)
    requires forall i :: 0 <= i < |p| ==> IsLowerAlnum(p[i])
    ensures KeepAlnum(p) == p
  {
    if p != "" { AlnumsAreKept(p[1..]); }
  }

  lemma {:induction false} OthersAreDropped(p: string)
    requires forall i :: 0 <= i < |p| ==> !IsAlnum(p[i])
    ensures KeepAlnum(p) == ""
  {
    if p != "" { OthersAreDropped(p[1..]); }
  }

  /** A letter or digit of either case. */
  predicate IsAlnum(c: char) {
    'a' <= c <= 'z' || 'A' <= c <= 'Z' || '0' <= c <= '9'
  }

  /** Separators in a tenant id do not count. */
  lemma SeparatorsDoNotCount(a: string, separators: string, b: string)
    requires forall i :: 0 <= i < |separators| ==> !IsAlnum(separators[i])
    ensures TenantShort(a + (separators + b)) == TenantShort(a + b)
  {
    KeepAlnumJoins(a, separators + b);
    KeepAlnumJoins(separators, b);
    OthersAreDropped(separators);
    KeepAlnumJoins(a, b);
    assert "" + KeepAlnum(b) == KeepAlnum(b);
  }

  /** After eight lower-case letters or digits nothing counts any more; a shorter id counts as a whole. */
  lemma EightCharactersDecide(head: string, rest: string)
    requires |head| <= 8 && forall i :: 0 <= i < |head| ==> IsLowerAlnum(head[i])
    ensures |head| == 8 ==> TenantShort(head + rest) == head
    ensures TenantShort(head) == head
  {
    KeepAlnumJoins(head, rest);
    AlnumsAreKept(head);
    if |head| == 8 {
      assert (head + KeepAlnum(rest))[..8] == head;
    }
  }

  function LowerAll(s: string): (r: string)
    ensures |r| == |s| && forall i :: 0 <= i < |s| ==> r[i] == Lower(s[i])
  {
    seq(|s|, i requires 0 <= i < |s| => Lower(s[i]))
  }

  /** A tenant id and the same id in lower case share their collections, capitals being the letters 32
      codes below. */
  lemma {:induction false} CaseDoesNotCount(s: string)
    ensures KeepAlnum(LowerAll(s)) == KeepAlnum(s) && TenantShort(LowerAll(s)) == TenantShort(s)
    ensures forall i :: 0 <= i < |s| && 'A' <= s[i] <= 'Z' ==> LowerAll(s)[i] as int == s[i] as int + 32
  {
    if s != "" {
      CaseDoesNotCount(s[1..]);
      assert LowerAll(s)[1..] == LowerAll(s[1..]);
    }
  }

  /** The slugs of two models agree exactly if the models are equally long and agree wherever one of them
      has a letter or a digit. */
  lemma SlugsAgreeIff(model: string, other: string)
    ensures Slug(model) == Slug(other) <==>
      |model| == |other| && forall i :: 0 <= i < |model| && (IsAlnum(model[i]) || IsAlnum(other[i])) ==> model[i] == other[i]
  {
    if |model| == |other| {
      forall i | 0 <= i < |model|
        ensures Slug(model)[i] == Slug(other)[i] <==> (IsAlnum(model[i]) || IsAlnum(other[i]) ==> model[i] == other[i])
      {
      }
      if Slug(model) != Slug(other) {
        assert exists i :: 0 <= i < |model| && Slug(model)[i] != Slug(other)[i];
      }
    }
  }

  // ---------------------------------------------------------------- documents and filters

  datatype Value = Text(s: string) | Int(i: int) | Number(r: real) | Flag(b: bool) | Other

  type Meta = map<string, Value>

  datatype Document = Document(
    memoryId: string, tenant: string, model: string, dimensions: int,
    content: string, sector: string, lifecycle: string, metadata: Meta)

  datatype Stored = Stored(meta: Meta, content: string)

  /** The caller's scalar metadata, overridden by the mandatory fields. */
  function FlatMeta(d: Document): Meta {
    (map k | k in d.metadata && !d.metadata[k].Other? :: d.metadata[k]) +
    map["tenant_id" := Text(d.tenant), "sector" := Text(d.sector), "lifecycle_state" := Text(d.lifecycle),
        "embedding_model_id" := Text(d.model), "embedding_dimensions" := Int(d.dimensions)]
  }

  predicate IsRouting(key: string) {
    key == "embedding_model_id" || key == "embedding_dimensions"
  }

  type Condition = (string, Value)

  /** Chroma wants one top-level key, so several conditions are wrapped. */
  datatype Where = One(c: Condition) | And(cs: seq<Condition>)

  predicate Satisfies(meta: Meta, c: Condition) {
    c.0 in meta && meta[c.0] == c.1
  }

  predicate Matches(meta: Meta, w: Where) {
    match w
    case One(c) => Satisfies(meta, c)
    case And(cs) => forall i :: 0 <= i < |cs| ==> Satisfies(meta, cs[i])
  }

  /** What a caller's filters ask for: every entry but the routing keys and the tenant. */
  predicate MeetsFilters(meta: Meta, filters: seq<Condition>) {
    forall i :: 0 <= i < |filters| && !IsRouting(filters[i].0) && filters[i].0 != "tenant_id"
      ==> Satisfies(meta, filters[i])
  }

  predicate OwnedBy(meta: Meta, tenant: string) {
    Satisfies(meta, ("tenant_id", Text(tenant)))
  }

  /** The where clause lets through exactly the tenant's documents that meet the filters, whatever
      keys those contain. */
  method BuildChromaWhere(filters: seq<Condition>, tenant: string) returns (w: Where)
    ensures forall meta: Meta :: Matches(meta, w) <==> OwnedBy(meta, tenant) && MeetsFilters(meta, filters)
  {
    var conditions: seq<Condition> := [("tenant_id", Text(tenant))];
    for i := 0 to |filters|
      invariant |conditions| >= 1 && conditions[0] == ("tenant_id", Text(tenant))
      invariant forall meta: Meta :: Matches(meta, And(conditions)) <==> OwnedBy(meta, tenant) && MeetsFilters(meta, filters[..i])
    {
      ghost var before := conditions;
      if !IsRouting(filters[i].0) && filters[i].0 != "tenant_id" {
        conditions := conditions + [filters[i]];
      }
      forall meta: Meta
        ensures Matches(meta, And(conditions)) <==> OwnedBy(meta, tenant) && MeetsFilters(meta, filters[..i + 1])
      {
        OneMoreCondition(meta, before, filters, i);
        assert Matches(meta, And(before)) <==> OwnedBy(meta, tenant) && MeetsFilters(meta, filters[..i]);
      }
    }
    assert filters[..|filters|] == filters;
    if |conditions| == 1 {
      w := One(("tenant_id", Text(tenant)));
      assert forall meta: Meta :: Matches(meta, w) <==> Matches(meta, And(conditions));
    } else {
      w := And(conditions);
    }
  }

  lemma OneMoreCondition(meta: Meta, cs: seq<Condition>, filters: seq<Condition>, i: nat)
    requires i < |filters|
    ensures Matches(meta, And(cs + [filters[i]])) <==> Matches(meta, And(cs)) && Satisfies(meta, filters[i])
    ensures MeetsFilters(meta, filters[..i + 1]) <==>
      MeetsFilters(meta, filters[..i]) &&
      (!IsRouting(filters[i].0) && filters[i].0 != "tenant_id" ==> Satisfies(meta, filters[i]))
  {
    var longer := cs + [filters[i]];
    assert forall j :: 0 <= j < |cs| ==> longer[j] == cs[j];
    assert longer[|cs|] == filters[i];
    assert forall j :: 0 <= j < i ==> filters[..i + 1][j] == filters[..i][j];
    assert filters[..i + 1][i] == filters[i];
  }

  // ---------------------------------------------------------------- the index

  type Collection = map<string, Stored>

  type Collections = map<string, Collection>

  function Opened(cols: Collections, name: string): Collections {
    if name in cols then cols else cols[name := map[]]
  }

  function Upserted(cols: Collections, d: Document): Collections {
    var name := CollectionName(d.tenant, d.model);
    var known := Opened(cols, name);
    known[name := known[name][d.memoryId := Stored(FlatMeta(d), d.content)]]
  }

  function DeletedFrom(col: Collection, id: string, tenant: string): Collection {
    if id in col && OwnedBy(col[id].meta, tenant) then col - {id} else col
  }

  function DeletedEverywhere(cols: Collections, id: string, tenant: string): Collections {
    map name | name in cols :: if Prefix(tenant) <= name then DeletedFrom(cols[name], id, tenant) else cols[name]
  }

  function Lookup(filters: seq<Condition>, key: string): Option<Value> {
    if filters == [] then None
    else if filters[0].0 == key then Some(filters[0].1)
    else Lookup(filters[1..], key)
  }

  /** The model a search is routed to; a model id that is no text makes the call fail. */
  function RoutedModel(filters: seq<Condition>): Result<string, StoreError> {
    match Lookup(filters, "embedding_model_id")
    case None => Ok("__unknown__")
    case Some(Text(m)) => Ok(m)
    case Some(_) => Err(StorageFailure)
  }

  datatype Found = Found(memoryId: string, content: string, metadata: Meta)

  ghost predicate DuplicateFree(s: seq<string>) {
    forall i, j :: 0 <= i < j < |s| ==> s[i] != s[j]
  }

  /** The tenant's documents that meet the filters, in the order of the ranking. */
  function HitsOf(col: Collection, ranking: seq<string>, tenant: string, filters: seq<Condition>): seq<Found> {
    if ranking == [] then []
    else
      var n := |ranking| - 1;
      var id := ranking[n];
      var before := HitsOf(col, ranking[..n], tenant, filters);
      if id in col && OwnedBy(col[id].meta, tenant) && MeetsFilters(col[id].meta, filters)
      then before + [Found(id, col[id].content, col[id].meta)] else before
  }

  function First(hits: seq<Found>, k: nat): seq<Found> {
    if |hits| <= k then hits else hits[..k]
  }

  /** The document of that id belongs to the tenant and meets the filters. */
  predicate IsWanted(col: Collection, id: string, tenant: string, filters: seq<Condition>) {
    id in col && OwnedBy(col[id].meta, tenant) && MeetsFilters(col[id].meta, filters)
  }

  /** Of the wanted documents the first k of the ranking, in its order, with what is stored of them. */
  ghost predicate IsFirstHits(out: seq<Found>, col: Collection, ranking: seq<string>, tenant: string,
                              filters: seq<Condition>, k: nat) {
    && |out| <= k
    && (forall a :: 0 <= a < |out| ==> IsHit(col, out[a], tenant, filters) && out[a].memoryId in ranking)
    && (forall a, b :: 0 <= a < b < |out| ==> Precedes(ranking, out[a].memoryId, out[b].memoryId))
    && forall id :: id in ranking && IsWanted(col, id, tenant, filters) && (forall a :: 0 <= a < |out| ==> out[a].memoryId != id)
         ==> |out| == k && forall a :: 0 <= a < |out| ==> Precedes(ranking, out[a].memoryId, id)
  }

  class ChromaVectorIndex {
    var cols: Collections

    constructor ()
      ensures cols == map[]
    {
      cols := map[];
    }

    method Upsert(d: Document)
      modifies this
      ensures cols == Upserted(old(cols), d)
      ensures var name := CollectionName(d.tenant, d.model);
        && cols.Keys == old(cols.Keys) + {name}
        && d.memoryId in cols[name] && cols[name][d.memoryId] == Stored(FlatMeta(d), d.content)
        && (forall id :: id != d.memoryId ==>
              (id in cols[name] <==> name in old(cols) && id in old(cols)[name]) &&
              (id in cols[name] ==> cols[name][id] == old(cols)[name][id]))
        && (forall other :: other in old(cols) && other != name ==> cols[other] == old(cols)[other])
    {
      var name := CollectionName(d.tenant, d.model);
      cols := Opened(cols, name);
      cols := cols[name := cols[name][d.memoryId := Stored(FlatMeta(d), d.content)]];
    }

    /** ranking is the order in which the nearest-neighbour search finds documents. */
    method Search(ranking: seq<string>, tenant: string, k: nat, filters: seq<Condition>)
      returns (r: Result<seq<Found>, StoreError>)
      requires DuplicateFree(ranking)
      modifies this
      ensures match RoutedModel(filters)
        case Err(e) => r == Err(e) && cols == old(cols)
        case Ok(model) =>
          var name := CollectionName(tenant, model);
          && cols == Opened(old(cols), name) && r.Ok?
          && r.value == First(HitsOf(cols[name], ranking, tenant, filters), k)
          && IsFirstHits(r.value, cols[name], ranking, tenant, filters, k)
    {
      var routed := RoutedModel(filters);
      if routed.Err? {
        return Err(routed.error);
      }
      var name := CollectionName(tenant, routed.value);
      var w := BuildChromaWhere(filters, tenant);
      cols := Opened(cols, name);
      var col := cols[name];
      var n := if k <= |col| then k else |col|;
      var out: seq<Found> := [];
      HitsFit(col, ranking, tenant, filters);
      FirstHitsAreFirst(col, ranking, tenant, filters, k);
      for i := 0 to |ranking|
        invariant out == HitsOf(col, ranking[..i], tenant, filters) && |out| <= n
      {
        if |out| == n {
          HitsGrow(col, ranking, i, tenant, filters);
          return Ok(out);
        }
        var id := ranking[i];
        assert ranking[..i + 1][..i] == ranking[..i];
        if id in col && Matches(col[id].meta, w) {
          out := out + [Found(id, col[id].content, col[id].meta)];
        }
      }
      assert ranking[..|ranking|] == ranking;
      r := Ok(out);
    }

    method Delete(id: string, tenant: string)
      modifies this
      ensures cols == DeletedEverywhere(old(cols), id, tenant)
      ensures cols.Keys == old(cols.Keys) && forall name, i :: name in cols ==>
        && (i in cols[name] <==>
            i in old(cols)[name] && !(i == id && Prefix(tenant) <= name && OwnedBy(old(cols)[name][i].meta, tenant)))
        && (i in cols[name] ==> cols[name][i] == old(cols)[name][i])
    {
      ghost var before := cols;
      var todo := cols.Keys;
      while todo != {}
        invariant todo <= cols.Keys == before.Keys
        invariant forall name :: name in before ==>
          cols[name] == if name in todo || !(Prefix(tenant) <= name) then before[name] else DeletedFrom(before[name], id, tenant)
        decreases |todo|
      {
        var name :| name in todo;
        if Prefix(tenant) <= name {
          if id in cols[name] && OwnedBy(cols[name][id].meta, tenant) {
            cols := cols[name := cols[name] - {id}];
          }
        }
        todo := todo - {name};
      }
    }
  }

  /** f is a document of the collection that belongs to the tenant and meets the filters. */
  predicate IsHit(col: Collection, f: Found, tenant: string, filters: seq<Condition>) {
    && f.memoryId in col && f.content == col[f.memoryId].content && f.metadata == col[f.memoryId].meta
    && OwnedBy(f.metadata, tenant) && MeetsFilters(f.metadata, filters)
  }

  predicate DistinctIds(out: seq<Found>) {
    forall a, b :: 0 <= a < b < |out| ==> out[a].memoryId != out[b].memoryId
  }

  lemma {:induction false} CountIds(out: seq<Found>)
    requires DistinctIds(out)
    ensures |set f | f in out :: f.memoryId| == |out|
  {
    if out != [] {
      var n := |out| - 1;
      CountIds(out[..n]);
      assert out == out[..n] + [out[n]];
      assert (set f | f in out :: f.memoryId) == (set f | f in out[..n] :: f.memoryId) + {out[n].memoryId};
      assert out[n].memoryId !in (set f | f in out[..n] :: f.memoryId);
    }
  }

  /** A search can return exactly the tenant's documents that meet the filters, each once. */
  lemma {:induction false} HitsAreExact(col: Collection, ranking: seq<string>, tenant: string, filters: seq<Condition>)
    requires DuplicateFree(ranking)
    ensures forall f :: f in HitsOf(col, ranking, tenant, filters) <==> IsHit(col, f, tenant, filters) && f.memoryId in ranking
    ensures DistinctIds(HitsOf(col, ranking, tenant, filters))
  {
    if ranking != [] {
      var n := |ranking| - 1;
      HitsAreExact(col, ranking[..n], tenant, filters);
      assert ranking == ranking[..n] + [ranking[n]];
      var before := HitsOf(col, ranking[..n], tenant, filters);
      var id := ranking[n];
      assert id !in ranking[..n];
      assert forall a :: 0 <= a < |before| ==> before[a] in before;
      var hits := HitsOf(col, ranking, tenant, filters);
      if id in col && OwnedBy(col[id].meta, tenant) && MeetsFilters(col[id].meta, filters) {
        var found := Found(id, col[id].content, col[id].meta);
        assert hits == before + [found];
        assert forall f :: IsHit(col, f, tenant, filters) && f.memoryId == id <==> f == found;
      } else {
        assert hits == before;
        assert forall f :: IsHit(col, f, tenant, filters) ==> f.memoryId != id;
      }
    }
  }

  lemma HitsFit(col: Collection, ranking: seq<string>, tenant: string, filters: seq<Condition>)
    requires DuplicateFree(ranking)
    ensures |HitsOf(col, ranking, tenant, filters)| <= |col|
  {
    var hits := HitsOf(col, ranking, tenant, filters);
    HitsAreExact(col, ranking, tenant, filters);
    CountIds(hits);
    var ids: set<string> := set f | f in hits :: f.memoryId;
    forall id | id in ids ensures id in col {
      var f :| f in hits && f.memoryId == id;
      assert IsHit(col, f, tenant, filters);
    }
    Sql.Subset(ids, col.Keys);
  }

  lemma {:induction false} HitsGrow(col: Collection, ranking: seq<string>, i: nat, tenant: string, filters: seq<Condition>)
    requires i <= |ranking|
    ensures HitsOf(col, ranking[..i], tenant, filters) <= HitsOf(col, ranking, tenant, filters)
    decreases |ranking| - i
  {
    if i == |ranking| {
      assert ranking[..i] == ranking;
    } else {
      HitsGrow(col, ranking, i + 1, tenant, filters);
      assert ranking[..i + 1][..i] == ranking[..i];
    }
  }

  lemma RankedInPrefix(ranking: seq<string>, n: nat, x: string, y: string)
    requires n <= |ranking| && Precedes(ranking[..n], x, y)
    ensures Precedes(ranking, x, y)
  {
    var i, j :| 0 <= i < j < n && ranking[..n][i] == x && ranking[..n][j] == y;
    assert ranking[i] == x && ranking[j] == y;
  }

  lemma RankedLast(ranking: seq<string>, x: string)
    requires ranking != [] && x in ranking[..|ranking| - 1]
    ensures Precedes(ranking, x, ranking[|ranking| - 1])
  {
    var i :| 0 <= i < |ranking| - 1 && ranking[..|ranking| - 1][i] == x;
    assert ranking[i] == x;
  }

  ghost predicate AreRankedHits(hits: seq<Found>, col: Collection, ranking: seq<string>, tenant: string, filters: seq<Condition>) {
    forall a :: 0 <= a < |hits| ==> IsHit(col, hits[a], tenant, filters) && hits[a].memoryId in ranking
  }

  ghost predicate AreInOrder(hits: seq<Found>, ranking: seq<string>) {
    forall a, b :: 0 <= a < b < |hits| ==> Precedes(ranking, hits[a].memoryId, hits[b].memoryId)
  }

  ghost predicate HasHit(hits: seq<Found>, id: string) {
    exists a :: 0 <= a < |hits| && hits[a].memoryId == id
  }

  lemma OrderedWithLast(before: seq<Found>, last: Found, ranking: seq<string>)
    requires ranking != [] && AreInOrder(before, ranking[..|ranking| - 1]) && last.memoryId == ranking[|ranking| - 1]
    requires forall a :: 0 <= a < |before| ==> before[a].memoryId in ranking[..|ranking| - 1]
    ensures AreInOrder(before, ranking) && AreInOrder(before + [last], ranking)
  {
    var n, hits := |ranking| - 1, before + [last];
    forall a, b | 0 <= a < b < |hits| ensures Precedes(ranking, hits[a].memoryId, hits[b].memoryId) {
      if b < |before| {
        RankedInPrefix(ranking, n, before[a].memoryId, before[b].memoryId);
      } else {
        RankedLast(ranking, before[a].memoryId);
      }
    }
    assert forall a :: 0 <= a < |before| ==> hits[a] == before[a];
  }

  /** The hits come in the order of the ranking and are all wanted documents it has. */
  lemma {:induction false} HitsAreInOrder(col: Collection, ranking: seq<string>, tenant: string, filters: seq<Condition>)
    ensures var hits := HitsOf(col, ranking, tenant, filters);
      && AreRankedHits(hits, col, ranking, tenant, filters) && AreInOrder(hits, ranking)
      && forall id :: id in ranking && IsWanted(col, id, tenant, filters) ==> HasHit(hits, id)
  {
    if ranking != [] {
      var n := |ranking| - 1;
      var id, before := ranking[n], HitsOf(col, ranking[..n], tenant, filters);
      HitsAreInOrder(col, ranking[..n], tenant, filters);
      assert ranking == ranking[..n] + [id];
      var last := if id in col then Found(id, col[id].content, col[id].meta) else Found(id, "", map[]);
      OrderedWithLast(before, last, ranking);
      if IsWanted(col, id, tenant, filters) {
        var hits := before + [last];
        assert HitsOf(col, ranking, tenant, filters) == hits && hits[|before|] == last;
        forall x | HasHit(before, x) ensures HasHit(hits, x) {
          var a :| 0 <= a < |before| && before[a].memoryId == x;
          assert hits[a] == before[a];
        }
      }
    }
  }

  lemma FirstHitsAreFirst(col: Collection, ranking: seq<string>, tenant: string, filters: seq<Condition>, k: nat)
    ensures IsFirstHits(First(HitsOf(col, ranking, tenant, filters), k), col, ranking, tenant, filters, k)
  {
    var hits := HitsOf(col, ranking, tenant, filters);
    var out := First(hits, k);
    HitsAreInOrder(col, ranking, tenant, filters);
    assert forall a :: 0 <= a < |out| ==> out[a] == hits[a];
    forall id | id in ranking && IsWanted(col, id, tenant, filters) && (forall a :: 0 <= a < |out| ==> out[a].memoryId != id)
      ensures |out| == k && forall a :: 0 <= a < |out| ==> Precedes(ranking, out[a].memoryId, id)
    {
      assert HasHit(hits, id);
      var m :| 0 <= m < |hits| && hits[m].memoryId == id;
      assert m >= |out|;
    }
  }

  /** What a filter means for a document that was just upserted: routing keys and a tenant are none. */
  predicate Asks(d: Document, key: string, v: Value) {
    if key == "embedding_model_id" || key == "embedding_dimensions" || key == "tenant_id" then true
    else if key == "sector" then v == Text(d.sector)
    else if key == "lifecycle_state" then v == Text(d.lifecycle)
    else key in d.metadata && d.metadata[key] == v && !v.Other?
  }

  lemma StoredMetaAnswers(d: Document, key: string, v: Value)
    ensures OwnedBy(FlatMeta(d), d.tenant)
    ensures MeetsFilters(FlatMeta(d), [(key, v)]) <==> Asks(d, key, v)
  {
    var filters := [(key, v)];
    assert filters[0] == (key, v);
    assert MeetsFilters(FlatMeta(d), filters) <==> IsRouting(key) || key == "tenant_id" || Satisfies(FlatMeta(d), (key, v));
  }

  /** A filter finds a document that was just upserted, by its sector, its lifecycle state or a scalar of
      its metadata, exactly if it has that value. */
  lemma FilterFindsIff(cols: Collections, d: Document, ranking: seq<string>, key: string, v: Value)
    requires d.memoryId in ranking
    ensures var hits := HitsOf(Upserted(cols, d)[CollectionName(d.tenant, d.model)], ranking, d.tenant, [(key, v)]);
      (exists a :: 0 <= a < |hits| && hits[a].memoryId == d.memoryId && hits[a].content == d.content) <==> Asks(d, key, v)
  {
    var col := Upserted(cols, d)[CollectionName(d.tenant, d.model)];
    HitsAreInOrder(col, ranking, d.tenant, [(key, v)]);
    StoredMetaAnswers(d, key, v);
    assert col[d.memoryId] == Stored(FlatMeta(d), d.content);
    assert IsWanted(col, d.memoryId, d.tenant, [(key, v)]) <==> Asks(d, key, v);
  }

  /** A search goes to the collection of the model its filters name, of "__unknown__" if they name none;
      a model that is no text makes it fail. */
  lemma {:induction false} RoutedByModel(filters: seq<Condition>)
    requires forall i, j :: 0 <= i < j < |filters| ==> filters[i].0 != filters[j].0
    ensures (forall i :: 0 <= i < |filters| ==> filters[i].0 != "embedding_model_id") ==> RoutedModel(filters) == Ok("__unknown__")
    ensures forall i :: 0 <= i < |filters| && filters[i].0 == "embedding_model_id" ==>
      RoutedModel(filters) == if filters[i].1.Text? then Ok(filters[i].1.s) else Err(StorageFailure)
  {
    if filters != [] {
      RoutedByModel(filters[1..]);
      assert forall i :: 1 <= i < |filters| ==> filters[i] == filters[1..][i - 1];
      assert forall i :: 0 <= i < |filters[1..]| ==> filters[1..][i] == filters[i + 1];
    }
  }

  // ---------------------------------------------------------------- runs over shared collections

  datatype Op =
    | Put(d: Document)
    | Remove(memoryId: string, tenant: string)
    | Touch(tenant: string, model: string)

  /** Touch is what a search does to the collections. */
  function After(ops: seq<Op>): Collections {
    if ops == [] then map[]
    else
      var cols := After(ops[..|ops| - 1]);
      match ops[|ops| - 1]
      case Put(d) => Upserted(cols, d)
      case Remove(id, tenant) => DeletedEverywhere(cols, id, tenant)
      case Touch(tenant, model) => Opened(cols, CollectionName(tenant, model))
  }

  /** A stored document sits in the collection of its own tenant and model. */
  ghost predicate WellPlaced(cols: Collections) {
    forall name, id :: name in cols && id in cols[name] ==> InPlace(cols[name][id].meta, name)
  }

  ghost predicate InPlace(meta: Meta, name: string) {
    exists tenant, model :: OwnedBy(meta, tenant) && name == CollectionName(tenant, model)
  }

  lemma PutStaysWellPlaced(cols: Collections, d: Document)
    requires WellPlaced(cols)
    ensures WellPlaced(Upserted(cols, d))
  {
    var cols': map<string, map<string, Stored>> := Upserted(cols, d);
    assert OwnedBy(FlatMeta(d), d.tenant);
    assert InPlace(FlatMeta(d), CollectionName(d.tenant, d.model));
    forall name, id | name in cols' && id in cols'[name] ensures InPlace(cols'[name][id].meta, name) {
      if name == CollectionName(d.tenant, d.model) && id == d.memoryId {
        assert cols'[name][id].meta == FlatMeta(d);
      } else {
        assert name in cols && id in cols[name] && cols'[name][id] == cols[name][id];
      }
    }
  }

  lemma {:induction false} RunsAreWellPlaced(ops: seq<Op>)
    ensures WellPlaced(After(ops))
  {
    if ops != [] {
      var cols, op := After(ops[..|ops| - 1]), ops[|ops| - 1];
      RunsAreWellPlaced(ops[..|ops| - 1]);
      if op.Put? {
        PutStaysWellPlaced(cols, op.d);
      } else if op.Remove? {
        RemoveStaysWellPlaced(cols, op.memoryId, op.tenant);
      } else {
        TouchStaysWellPlaced(cols, CollectionName(op.tenant, op.model));
      }
    }
  }

  lemma RemoveStaysWellPlaced(cols: Collections, id: string, tenant: string)
    requires WellPlaced(cols)
    ensures WellPlaced(DeletedEverywhere(cols, id, tenant))
  {
  }

  lemma TouchStaysWellPlaced(cols: Collections, name: string)
    requires WellPlaced(cols)
    ensures WellPlaced(Opened(cols, name))
  {
  }

  /** After a delete no collection holds the tenant's document of that id. */
  lemma DeleteIsComplete(ops: seq<Op>, id: string, tenant: string, name: string)
    requires name in After(ops + [Remove(id, tenant)]) && id in After(ops + [Remove(id, tenant)])[name]
    ensures !OwnedBy(After(ops + [Remove(id, tenant)])[name][id].meta, tenant)
  {
    assert (ops + [Remove(id, tenant)])[..|ops|] == ops;
    RunsAreWellPlaced(ops);
    var cols: Collections := After(ops);
    var col: Collection := cols[name];
    var owner: string, model: string :| OwnedBy(col[id].meta, owner) && name == CollectionName(owner, model);
    PrefixMatchesTenantPart(tenant, owner, model);
  }

  // ---------------------------------------------------------------- a plain map per tenant and model

  /** The index as callers think of it: one map per tenant and embedding model. */
  type Plain = map<(string, string, string), Stored>

  function PlainAfter(ops: seq<Op>): Plain {
    if ops == [] then map[]
    else
      var plain := PlainAfter(ops[..|ops| - 1]);
      match ops[|ops| - 1]
      case Put(d) => plain[(d.tenant, d.model, d.memoryId) := Stored(FlatMeta(d), d.content)]
      case Remove(id, tenant) => map key | key in plain && !(key.0 == tenant && key.2 == id) :: plain[key]
      case Touch(_, _) => plain
  }

  predicate EmbeddedBy(meta: Meta, model: string) {
    "embedding_model_id" in meta && meta["embedding_model_id"] == Text(model)
  }

  /** What the collections hold for a tenant and a model under an id. */
  function Held(cols: Collections, tenant: string, model: string, id: string): Option<Stored> {
    var name := CollectionName(tenant, model);
    if name in cols && id in cols[name] && OwnedBy(cols[name][id].meta, tenant) && EmbeddedBy(cols[name][id].meta, model)
    then Some(cols[name][id]) else None
  }

  function PlainHeld(plain: Plain, tenant: string, model: string, id: string): Option<Stored> {
    if (tenant, model, id) in plain then Some(plain[(tenant, model, id)]) else None
  }

  ghost predicate Agrees(cols: Collections, plain: Plain) {
    forall tenant, model, id :: Held(cols, tenant, model, id) == PlainHeld(plain, tenant, model, id)
  }

  /** The document of another tenant, or of another model of the same tenant, shares d's collection. */
  predicate SharesCollection(tenant: string, model: string, d: Document) {
    (tenant != d.tenant || model != d.model) && CollectionName(tenant, model) == CollectionName(d.tenant, d.model)
  }

  /** The upsert would replace a document that the collection keeps under the same id for another
      tenant or another model. */
  ghost predicate Clobbers(cols: Collections, d: Document) {
    exists tenant, model :: SharesCollection(tenant, model, d) && Held(cols, tenant, model, d.memoryId).Some?
  }

  /** Two collections coincide exactly when the tenants agree in their first eight alphanumerics and
      the models in their slug. */
  lemma CollectionsCoincideIff(tenant: string, model: string, other: string, model': string)
    ensures CollectionName(tenant, model) == CollectionName(other, model')
       <==> TenantShort(tenant) == TenantShort(other) && Slug(model) == Slug(model')
  {
    NamesAreInjective(TenantShort(tenant), TenantShort(other), Slug(model), Slug(model'));
  }

  lemma HeldAfterPut(cols: Collections, d: Document, tenant: string, model: string, id: string)
    ensures Held(Upserted(cols, d), tenant, model, id) ==
      if CollectionName(tenant, model) == CollectionName(d.tenant, d.model) && id == d.memoryId
      then (if tenant == d.tenant && model == d.model then Some(Stored(FlatMeta(d), d.content)) else None)
      else Held(cols, tenant, model, id)
  {
    assert FlatMeta(d)["tenant_id"] == Text(d.tenant) && FlatMeta(d)["embedding_model_id"] == Text(d.model);
  }

  /** An upsert keeps the index in step with the plain maps exactly when it does not replace the
      document of another tenant or model. */
  lemma UpsertAgreesIff(cols: Collections, plain: Plain, d: Document)
    requires Agrees(cols, plain)
    ensures Agrees(Upserted(cols, d), plain[(d.tenant, d.model, d.memoryId) := Stored(FlatMeta(d), d.content)])
       <==> !Clobbers(cols, d)
  {
    var plain' := plain[(d.tenant, d.model, d.memoryId) := Stored(FlatMeta(d), d.content)];
    if Clobbers(cols, d) {
      var tenant, model :| SharesCollection(tenant, model, d) && Held(cols, tenant, model, d.memoryId).Some?;
      HeldAfterPut(cols, d, tenant, model, d.memoryId);
      assert PlainHeld(plain', tenant, model, d.memoryId) == PlainHeld(plain, tenant, model, d.memoryId);
    } else {
      forall tenant, model, id ensures Held(Upserted(cols, d), tenant, model, id) == PlainHeld(plain', tenant, model, id) {
        HeldAfterPut(cols, d, tenant, model, id);
        assert Held(cols, tenant, model, id) == PlainHeld(plain, tenant, model, id);
      }
    }
  }

  lemma DeleteKeepsAgreement(cols: Collections, plain: Plain, id: string, tenant: string)
    requires Agrees(cols, plain)
    ensures Agrees(DeletedEverywhere(cols, id, tenant), map key | key in plain && !(key.0 == tenant && key.2 == id) :: plain[key])
  {
    var cols' := DeletedEverywhere(cols, id, tenant);
    var plain' := map key | key in plain && !(key.0 == tenant && key.2 == id) :: plain[key];
    forall t, model, i ensures Held(cols', t, model, i) == PlainHeld(plain', t, model, i) {
      assert Held(cols, t, model, i) == PlainHeld(plain, t, model, i);
      if t == tenant { PrefixMatchesTenantPart(tenant, t, model); }
    }
  }

  /** No two upserts of one collection put different tenants' or models' documents under one id. */
  ghost predicate NoSharedIds(ops: seq<Op>) {
    forall i, j :: 0 <= i < |ops| && 0 <= j < |ops| ==> !ShareId(ops[i], ops[j])
  }

  predicate ShareId(a: Op, b: Op) {
    a.Put? && b.Put? && a.d.memoryId == b.d.memoryId && SharesCollection(a.d.tenant, a.d.model, b.d)
  }

  ghost predicate PutBy(op: Op, tenant: string, model: string, id: string) {
    op.Put? && op.d.tenant == tenant && op.d.model == model && op.d.memoryId == id
  }

  /** Whatever a collection holds was put there by some upsert of the run. */
  lemma {:induction false} HeldWasPut(ops: seq<Op>, tenant: string, model: string, id: string)
    requires Held(After(ops), tenant, model, id).Some?
    ensures exists i :: 0 <= i < |ops| && PutBy(ops[i], tenant, model, id)
  {
    var n := |ops| - 1;
    var cols, op := After(ops[..n]), ops[n];
    if op.Put? { HeldAfterPut(cols, op.d, tenant, model, id); }
    if !PutBy(op, tenant, model, id) {
      assert Held(cols, tenant, model, id).Some?;
      HeldWasPut(ops[..n], tenant, model, id);
      var i :| 0 <= i < n && PutBy(ops[..n][i], tenant, model, id);
      assert ops[i] == ops[..n][i];
    }
  }

  /** The last operation replaces the document of another tenant or model. */
  ghost predicate LastClobbers(ops: seq<Op>) {
    ops != [] && ops[|ops| - 1].Put? && Clobbers(After(ops[..|ops| - 1]), ops[|ops| - 1].d)
  }

  /** After these operations the collections agree with the plain maps. */
  ghost predicate InStep(ops: seq<Op>) {
    Agrees(After(ops), PlainAfter(ops))
  }

  lemma UpsertInStepIff(ops: seq<Op>, d: Document)
    requires InStep(ops)
    ensures InStep(ops + [Put(d)]) <==> !Clobbers(After(ops), d)
  {
    assert (ops + [Put(d)])[..|ops|] == ops;
    UpsertAgreesIff(After(ops), PlainAfter(ops), d);
  }

  lemma DeleteStaysInStep(ops: seq<Op>, id: string, tenant: string)
    requires InStep(ops)
    ensures InStep(ops + [Remove(id, tenant)])
  {
    assert (ops + [Remove(id, tenant)])[..|ops|] == ops;
    DeleteKeepsAgreement(After(ops), PlainAfter(ops), id, tenant);
  }

  lemma SearchStaysInStep(ops: seq<Op>, tenant: string, model: string)
    requires InStep(ops)
    ensures InStep(ops + [Touch(tenant, model)])
  {
    var cols := After(ops);
    assert (ops + [Touch(tenant, model)])[..|ops|] == ops;
    forall t, m, id ensures Held(Opened(cols, CollectionName(tenant, model)), t, m, id) == PlainHeld(PlainAfter(ops), t, m, id) {
      assert Held(Opened(cols, CollectionName(tenant, model)), t, m, id) == Held(cols, t, m, id);
    }
  }

  /** Whether the index stays in step is decided by each operation in turn. */
  lemma OperationAgreesIff(ops: seq<Op>)
    requires ops != [] && InStep(ops[..|ops| - 1])
    ensures InStep(ops) <==> !LastClobbers(ops)
  {
    var before, op := ops[..|ops| - 1], ops[|ops| - 1];
    assert ops == before + [op];
    match op {
      case Put(d) => UpsertInStepIff(before, d);
      case Remove(id, tenant) => DeleteStaysInStep(before, id, tenant);
      case Touch(tenant, model) => SearchStaysInStep(before, tenant, model);
    }
  }

  ghost predicate AgreesThroughout(ops: seq<Op>) {
    forall n :: 0 <= n <= |ops| ==> InStep(ops[..n])
  }

  ghost predicate NeverClobbers(ops: seq<Op>) {
    forall n :: 0 <= n <= |ops| ==> !LastClobbers(ops[..n])
  }

  lemma PrefixesOfPrefix(ops: seq<Op>)
    requires ops != []
    ensures ops[..|ops|] == ops
    ensures forall n :: 0 <= n < |ops| ==> ops[..|ops| - 1][..n] == ops[..n]
  {
  }

  lemma AgreesOneMore(ops: seq<Op>)
    requires ops != []
    ensures AgreesThroughout(ops) <==> AgreesThroughout(ops[..|ops| - 1]) && InStep(ops)
  {
    var before := ops[..|ops| - 1];
    PrefixesOfPrefix(ops);
    if AgreesThroughout(ops) {
      assert InStep(ops[..|ops|]);
      forall n | 0 <= n <= |before| ensures InStep(before[..n]) { assert InStep(ops[..n]); }
    }
    if AgreesThroughout(before) && InStep(ops) {
      forall n | 0 <= n <= |ops| ensures InStep(ops[..n]) {
        if n < |ops| { assert InStep(before[..n]); }
      }
    }
  }

  lemma ClobbersOneMore(ops: seq<Op>)
    requires ops != []
    ensures NeverClobbers(ops) <==> NeverClobbers(ops[..|ops| - 1]) && !LastClobbers(ops)
  {
    var before := ops[..|ops| - 1];
    PrefixesOfPrefix(ops);
    if NeverClobbers(ops) {
      assert !LastClobbers(ops[..|ops|]);
      forall n | 0 <= n <= |before| ensures !LastClobbers(before[..n]) { assert !LastClobbers(ops[..n]); }
    }
    if NeverClobbers(before) && !LastClobbers(ops) {
      forall n | 0 <= n <= |ops| ensures !LastClobbers(ops[..n]) {
        if n < |ops| { assert !LastClobbers(before[..n]); }
      }
    }
  }

  /** Over any run of upserts, deletes and searches the shared collections agree with a plain map per
      tenant and model all along exactly when no upsert replaces another tenant's or model's document. */
  lemma {:induction false} AgreesThroughoutIff(ops: seq<Op>)
    ensures AgreesThroughout(ops) <==> NeverClobbers(ops)
  {
    if ops == [] {
      EmptyRunAgrees();
    } else {
      var before := ops[..|ops| - 1];
      AgreesThroughoutIff(before);
      AgreesOneMore(ops);
      ClobbersOneMore(ops);
      if AgreesThroughout(before) {
        assert InStep(before[..|before|]) && before[..|before|] == before;
        OperationAgreesIff(ops);
      }
    }
  }

  lemma EmptyRunAgrees()
    ensures AgreesThroughout([]) && NeverClobbers([])
  {
    var none: seq<Op> := [];
    assert none[..0] == [];
    assert InStep([]);
  }

  /** In particular they agree if tenants and models of one collection share no ids. */
  lemma {:induction false} IndexAgreesWithPlainMaps(ops: seq<Op>)
    requires NoSharedIds(ops)
    ensures InStep(ops)
  {
    if ops != [] {
      var n := |ops| - 1;
      assert NoSharedIds(ops[..n]) by {
        assert forall i :: 0 <= i < n ==> ops[..n][i] == ops[i];
      }
      IndexAgreesWithPlainMaps(ops[..n]);
      if ops[n].Put? { NothingIsClobbered(ops, ops[n].d); }
      OperationAgreesIff(ops);
    }
  }

  lemma NothingIsClobbered(ops: seq<Op>, d: Document)
    requires ops != [] && NoSharedIds(ops) && ops[|ops| - 1] == Put(d)
    ensures !Clobbers(After(ops[..|ops| - 1]), d)
  {
    var n := |ops| - 1;
    assert forall i :: 0 <= i < n ==> ops[..n][i] == ops[i] && !ShareId(ops[i], ops[n]);
    forall tenant, model | SharesCollection(tenant, model, d)
      ensures Held(After(ops[..n]), tenant, model, d.memoryId).None?
    {
      if Held(After(ops[..n]), tenant, model, d.memoryId).Some? {
        HeldWasPut(ops[..n], tenant, model, d.memoryId);
      }
    }
  }
}
