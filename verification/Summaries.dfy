/** What a consolidation keeps of its sources: which records are merged, and what the summary says. */
module Summaries {
  import opened Domain
  import opened Records
  import opened Sql
  import opened Consolidation

  // ---------------------------------------------------------------- the text

  /** The lines with one more character in front. */
  function InFront(c: char, lines: seq<string>): (r: seq<string>)
    requires |lines| >= 1
    ensures |r| >= 1
  {
    if c == '\n' then [""] + lines else [[c] + lines[0]] + lines[1..]
  }

  /** The lines of a text. */
  function Split(s: string): (lines: seq<string>)
    ensures |lines| >= 1
  {
    if s == "" then [""] else InFront(s[0], Split(s[1..]))
  }

  /** The lines of several texts, one after another. */
  function AllLines(texts: seq<string>): seq<string> {
    if texts == [] then [] else Split(texts[0]) + AllLines(texts[1..])
  }

  lemma InFrontOfMore(c: char, lines: seq<string>, more: seq<string>)
    requires |lines| >= 1
    ensures InFront(c, lines + more) == InFront(c, lines) + more
  {
    assert (lines + more)[1..] == lines[1..] + more;
  }

  /** What begins with a newline starts a line. */
  lemma {:induction false} SplitAtNewline(a: string, t: string)
    requires t != "" && t[0] == '\n'
    ensures Split(a + t) == Split(a) + Split(t[1..])
  {
    if a == "" {
      assert a + t == t;
    } else {
      SplitAtNewline(a[1..], t);
      assert (a + t)[1..] == a[1..] + t;
      InFrontOfMore(a[0], Split(a[1..]), Split(t[1..]));
    }
  }

  /** Joining loses nothing but where one text ends: the lines are those of the texts in their order. */
  lemma {:induction false} JoinedLines(texts: seq<string>)
    requires texts != []
    ensures Split(JoinLines(texts)) == AllLines(texts)
  {
    if |texts| == 1 {
      assert AllLines(texts[1..]) == [];
    } else {
      JoinedLines(texts[1..]);
      var t := "\n" + JoinLines(texts[1..]);
      SplitAtNewline(texts[0], t);
      assert t[1..] == JoinLines(texts[1..]) && texts[0] + "\n" + JoinLines(texts[1..]) == texts[0] + t;
    }
  }

  lemma {:induction false} OneLine(s: string)
    requires '\n' !in s
    ensures Split(s) == [s]
  {
    if s != "" {
      OneLine(s[1..]);
      assert [s[0]] + s[1..] == s;
    }
  }

  lemma {:induction false} OneLineEach(texts: seq<string>)
    requires forall k :: 0 <= k < |texts| ==> '\n' !in texts[k]
    ensures AllLines(texts) == texts
  {
    if texts != [] {
      OneLine(texts[0]);
      OneLineEach(texts[1..]);
    }
  }

  // ---------------------------------------------------------------- the batch

  /** The records of the sector in the listing. */
  function OfSector(rows: Rows, listing: seq<string>, sector: Sector): set<string> {
    set i | i in listing && i in rows && rows[i].sector == sector
  }

  /** The first maxItems records of the sector, in the order of the listing. */
  ghost predicate IsFirstOfSector(rows: Rows, listing: seq<string>, sector: Sector, maxItems: nat, batch: seq<string>) {
    && |batch| == (if |OfSector(rows, listing, sector)| <= maxItems then |OfSector(rows, listing, sector)| else maxItems)
    && (forall i :: i in batch ==> i in OfSector(rows, listing, sector))
    && IsInOrderOf(listing, batch)
    && forall i, b :: i in OfSector(rows, listing, sector) && i !in batch && 0 <= b < |batch| ==> Precedes(listing, batch[b], i)
  }

  lemma PrecedesLater(listing: seq<string>, x: string, y: string)
    requires listing != [] && Precedes(listing[1..], x, y)
    ensures Precedes(listing, x, y)
  {
    var i, j :| 0 <= i < j < |listing[1..]| && listing[1..][i] == x && listing[1..][j] == y;
    assert listing[i + 1] == x && listing[j + 1] == y;
  }

  ghost predicate IsInOrderOf(listing: seq<string>, r: seq<string>) {
    forall a, b :: 0 <= a < b < |r| ==> Precedes(listing, r[a], r[b])
  }

  lemma OrderWithFirst(listing: seq<string>, r: seq<string>)
    requires listing != [] && IsInOrderOf(listing[1..], r) && forall i :: i in r ==> i in listing[1..]
    ensures IsInOrderOf(listing, r) && IsInOrderOf(listing, [listing[0]] + r)
  {
    forall a, b | 0 <= a < b < |r| ensures Precedes(listing, r[a], r[b]) {
      PrecedesLater(listing, r[a], r[b]);
    }
    var longer := [listing[0]] + r;
    forall a, b | 0 <= a < b < |longer| ensures Precedes(listing, longer[a], longer[b]) {
      assert longer[b] == r[b - 1] && r[b - 1] in listing[1..];
      if a == 0 {
        var j :| 0 <= j < |listing[1..]| && listing[1..][j] == r[b - 1];
        assert listing[j + 1] == longer[b];
      } else {
        assert longer[a] == r[a - 1];
      }
    }
  }

  lemma {:induction false} SectorIsInOrder(rows: Rows, listing: seq<string>, sector: Sector)
    requires forall i :: i in listing ==> i in rows
    ensures IsInOrderOf(listing, InSector(rows, listing, sector))
  {
    if listing != [] {
      SectorIsInOrder(rows, listing[1..], sector);
      OrderWithFirst(listing, InSector(rows, listing[1..], sector));
    }
  }

  lemma BatchIsFirst(rows: Rows, listing: seq<string>, sector: Sector, policy: Policy)
    requires forall i :: i in listing ==> i in rows
    requires forall a, b :: 0 <= a < b < |listing| ==> listing[a] != listing[b]
    ensures |InSector(rows, listing, sector)| == |OfSector(rows, listing, sector)|
    ensures IsFirstOfSector(rows, listing, sector, policy.maxItems, Cut(InSector(rows, listing, sector), policy))
  {
    var found, batch := InSector(rows, listing, sector), Cut(InSector(rows, listing, sector), policy);
    SectorIsInOrder(rows, listing, sector);
    DistinctCount(found);
    assert (set i | i in found) == OfSector(rows, listing, sector);
    assert forall b :: 0 <= b < |batch| ==> batch[b] == found[b];
    forall i | i in batch ensures i in OfSector(rows, listing, sector) {
      assert i in found;
    }
    forall i, b | i in OfSector(rows, listing, sector) && i !in batch && 0 <= b < |batch| ensures Precedes(listing, batch[b], i) {
      assert i in found;
      var c :| 0 <= c < |found| && found[c] == i;
      assert b < c;
    }
  }

  // ---------------------------------------------------------------- a run

  /** The summary of a batch: of the job's tenant and the first source's principal, with the LLM's answer
      or, without one, the lines of all the payloads in the order of the batch. */
  ghost predicate Summarises(r: Record, rows: Rows, batch: seq<string>, job: Job, sector: Sector, supply: Supply) {
    && batch != [] && (forall i :: i in batch ==> i in rows)
    && r.id == supply.newId && r.tenant == job.tenant && r.principal == rows[batch[0]].principal && r.sector == sector
    && r.lifecycle == Consolidated && r.pipeline == Enriched && r.recordedAt == supply.now && r.key.None?
    && (supply.llm.Some? ==> r.payload == supply.llm.value)
    && (supply.llm.None? ==> Split(r.payload) == AllLines(Payloads(rows, batch)))
    && (supply.llm.None? && (forall i :: i in batch ==> '\n' !in rows[i].payload) ==> Split(r.payload) == Payloads(rows, batch))
  }

  lemma SummaryTells(rows: Rows, batch: seq<string>, job: Job, sector: Sector, supply: Supply)
    requires batch != [] && forall i :: i in batch ==> i in rows
    ensures Summarises(SummaryOf(rows, batch, job.tenant, sector, supply), rows, batch, job, sector, supply)
  {
    var texts := Payloads(rows, batch);
    JoinedLines(texts);
    if forall i :: i in batch ==> '\n' !in rows[i].payload {
      forall k | 0 <= k < |texts| ensures '\n' !in texts[k] { assert batch[k] in batch; }
      OneLineEach(texts);
    }
  }

  /** A sector run works on the first maxItems records of its sector in the listing, as soon as there are
      threshold of them, and stores a summary that tells what they say. */
  lemma SectorRunTells(rows: Rows, rows': Rows, job: Job, sector: Sector, supply: Supply, outcome: Outcome,
                       listing: seq<string>)
    requires IsSectorRun(rows, rows', job, sector, supply, outcome, listing)
    ensures var batch, policy := Batch(rows, listing, sector, job.policy), job.policy;
      && (if |OfSector(rows, listing, sector)| < policy.threshold then batch == []
          else IsFirstOfSector(rows, listing, sector, policy.maxItems, batch))
      && (batch != [] ==> supply.newId in rows' && Summarises(rows'[supply.newId], rows, batch, job, sector, supply))
  {
    BatchIsFirst(rows, listing, sector, job.policy);
    var batch := Batch(rows, listing, sector, job.policy);
    if batch != [] {
      CutIsFound(rows, listing, sector, job.policy);
      SummaryTells(rows, batch, job, sector, supply);
    }
  }
}
