/** The SQLite audit log: insert-only rows whose timestamps are text, read back in text order. */
module AuditLog {
  import opened Domain
  import opened Timestamps

  datatype Entry = Entry(id: string, tenant: string, memoryId: Option<string>, at: DateTime)

  datatype Row = Row(id: string, tenant: string, memoryId: Option<string>, text: string)

  function RowOf(e: Entry): Row {
    Row(e.id, e.tenant, Truthy(e.memoryId), Format(e.at))
  }

  function EntryOf(r: Row): Option<Entry> {
    match Parse(r.text)
    case None => None
    case Some(t) => Some(Entry(r.id, r.tenant, Truthy(r.memoryId), t))
  }

  /** An entry reads back as itself unless its memory id is the empty string. */
  lemma RowReadsBack(e: Entry)
    ensures EntryOf(RowOf(e)).Some? && RowOf(EntryOf(RowOf(e)).value) == RowOf(e)
    ensures EntryOf(RowOf(e)) == Some(e) <==> e.memoryId != Some("")
  {
    FormatReadsBack(e.at);
  }

  /** Rows that were written by append. */
  predicate Readable(r: Row) {
    EntryOf(r).Some? && RowOf(EntryOf(r).value) == r
  }

  function RowsOf(entries: seq<Entry>): (rows: seq<Row>)
    ensures |rows| == |entries| && forall i :: 0 <= i < |rows| ==> rows[i] == RowOf(entries[i])
  {
    seq(|entries|, i requires 0 <= i < |entries| => RowOf(entries[i]))
  }

  function EntriesOf(rows: seq<Row>): (entries: seq<Entry>)
    requires forall i :: 0 <= i < |rows| ==> Readable(rows[i])
  {
    seq(|rows|, i requires 0 <= i < |rows| && Readable(rows[i]) => EntryOf(rows[i]).value)
  }

  lemma EntriesAreThoseOf(rows: seq<Row>)
    requires forall i :: 0 <= i < |rows| ==> Readable(rows[i])
    ensures RowsOf(EntriesOf(rows)) == rows
  {
    forall i | 0 <= i < |rows| ensures RowsOf(EntriesOf(rows))[i] == rows[i] {
      assert EntriesOf(rows)[i] == EntryOf(rows[i]).value;
    }
  }

  function ForMemory(rows: seq<Row>, memoryId: string): (r: seq<Row>)
    ensures forall x :: x in r <==> x in rows && x.memoryId == Some(memoryId)
  {
    if rows == [] then []
    else
      var n := |rows| - 1;
      assert rows == rows[..n] + [rows[n]];
      if rows[n].memoryId == Some(memoryId) then ForMemory(rows[..n], memoryId) + [rows[n]]
      else ForMemory(rows[..n], memoryId)
  }

  // ---------------------------------------------------------------- ORDER BY timestamp ASC

  predicate InTextOrder(rows: seq<Row>) {
    forall i, j :: 0 <= i < j < |rows| ==> !TextLess(rows[j].text, rows[i].text)
  }

  lemma TextOrderIsTransitive(a: string, b: string, c: string)
    requires !TextLess(b, a) && !TextLess(c, b)
    ensures !TextLess(c, a)
  {
  }

  lemma TextOrderIsTotal(a: string, b: string)
    ensures !TextLess(a, b) || !TextLess(b, a)
  {
  }

  function InsertByText(r: Row, rows: seq<Row>): seq<Row> {
    if rows == [] || TextLess(r.text, rows[0].text) then [r] + rows
    else [rows[0]] + InsertByText(r, rows[1..])
  }

  function SortByText(rows: seq<Row>): seq<Row> {
    if rows == [] then [] else InsertByText(rows[|rows| - 1], SortByText(rows[..|rows| - 1]))
  }

  lemma {:induction false} InsertKeepsTextOrder(r: Row, rows: seq<Row>)
    requires InTextOrder(rows)
    ensures InTextOrder(InsertByText(r, rows))
    ensures multiset(InsertByText(r, rows)) == multiset(rows) + multiset{r}
  {
    if rows == [] {
    } else if TextLess(r.text, rows[0].text) {
      var s := [r] + rows;
      TextOrderIsTotal(r.text, rows[0].text);
      forall j | 0 < j < |s| ensures !TextLess(s[j].text, r.text) {
        if j > 1 {
          assert s[1] == rows[0] && s[j] == rows[j - 1];
          TextOrderIsTransitive(r.text, rows[0].text, s[j].text);
        }
      }
    } else {
      var rest := InsertByText(r, rows[1..]);
      InsertKeepsTextOrder(r, rows[1..]);
      assert rows == [rows[0]] + rows[1..];
      forall j | 0 <= j < |rest| ensures !TextLess(rest[j].text, rows[0].text) {
        assert rest[j] in multiset(rest);
        if rest[j] != r {
          assert rest[j] in multiset(rows[1..]);
          var i :| 0 <= i < |rows[1..]| && rows[1..][i] == rest[j];
          assert rows[i + 1] == rest[j];
        }
      }
    }
  }

  lemma {:induction false} SortsByText(rows: seq<Row>)
    ensures InTextOrder(SortByText(rows)) && multiset(SortByText(rows)) == multiset(rows)
  {
    if rows != [] {
      var n := |rows| - 1;
      SortsByText(rows[..n]);
      InsertKeepsTextOrder(rows[n], SortByText(rows[..n]));
      assert rows == rows[..n] + [rows[n]];
    }
  }

  lemma SortKeepsMembers(rows: seq<Row>)
    ensures forall x :: x in SortByText(rows) <==> x in rows
  {
    SortsByText(rows);
    forall x ensures x in SortByText(rows) <==> x in rows {
      assert x in SortByText(rows) <==> x in multiset(SortByText(rows));
      assert x in rows <==> x in multiset(rows);
    }
  }

  // ---------------------------------------------------------------- the log

  class SqliteAuditLog {
    var rows: seq<Row>

    ghost predicate Valid()
      reads this
    {
      forall r :: r in rows ==> Readable(r)
    }

    constructor ()
      ensures Valid() && rows == []
    {
      rows := [];
    }

    /** A plain INSERT: a repeated id is an error and history stays as it was. */
    method Append(e: Entry) returns (raised: Option<StoreError>)
      requires Valid()
      modifies this
      ensures Valid()
      ensures if exists i :: 0 <= i < |old(rows)| && old(rows)[i].id == e.id
              then raised == Some(StorageFailure) && rows == old(rows)
              else raised.None? && rows == old(rows) + [RowOf(e)]
    {
      if exists i :: 0 <= i < |rows| && rows[i].id == e.id {
        return Some(StorageFailure);
      }
      RowReadsBack(e);
      rows := rows + [RowOf(e)];
      raised := None;
    }

    /** The entries of the memory, ordered by the text of their timestamps. */
    method GetByMemoryId(memoryId: string, tenant: string) returns (r: Result<seq<Entry>, StoreError>)
      requires Valid()
      ensures IsAnswer(rows, memoryId, tenant, r)
    {
      var found := SortByText(ForMemory(rows, memoryId));
      SortsByText(ForMemory(rows, memoryId));
      SortKeepsMembers(ForMemory(rows, memoryId));
      var foreign := HasForeign(found, tenant);
      if foreign {
        return Err(TenantViolation);
      }
      forall i | 0 <= i < |found| ensures Readable(found[i]) {
        assert found[i] in found;
      }
      EntriesAreThoseOf(found);
      r := Ok(EntriesOf(found));
    }
  }

  method HasForeign(found: seq<Row>, tenant: string) returns (foreign: bool)
    ensures foreign <==> exists x :: x in found && x.tenant != tenant
  {
    for i := 0 to |found|
      invariant forall j :: 0 <= j < i ==> found[j].tenant == tenant
    {
      if found[i].tenant != tenant {
        assert found[i] in found;
        return true;
      }
    }
    foreign := false;
  }

  /** The rows of the memory as entries in text order, or an error if one is another tenant's. */
  ghost predicate IsAnswer(rows: seq<Row>, memoryId: string, tenant: string, r: Result<seq<Entry>, StoreError>) {
    var found := ForMemory(rows, memoryId);
    if exists x :: x in found && x.tenant != tenant then r == Err(TenantViolation)
    else r.Ok? && InTextOrder(RowsOf(r.value)) && multiset(RowsOf(r.value)) == multiset(found)
  }

  /** Entries whose rows are in text order are in chronological order if they share their UTC offset. */
  lemma TrailIsChronological(entries: seq<Entry>, i: nat, j: nat)
    requires InTextOrder(RowsOf(entries)) && i < j < |entries|
    requires entries[i].at.offset == entries[j].at.offset
    ensures Instant(entries[i].at) <= Instant(entries[j].at)
  {
    assert !TextLess(RowsOf(entries)[j].text, RowsOf(entries)[i].text);
    TextOrderIsTimeOrder(entries[j].at, entries[i].at);
  }

  // ---------------------------------------------------------------- the trail of a history

  /** How many of the entries are about the memory. */
  function CountOf(history: seq<Entry>, memoryId: string): nat {
    if history == [] then 0
    else CountOf(history[..|history| - 1], memoryId) + if history[|history| - 1].memoryId == Some(memoryId) then 1 else 0
  }

  lemma {:induction false} RowsAreCounted(history: seq<Entry>, memoryId: string)
    requires memoryId != ""
    ensures |ForMemory(RowsOf(history), memoryId)| == CountOf(history, memoryId)
  {
    if history != [] {
      var n := |history| - 1;
      RowsAreCounted(history[..n], memoryId);
      assert RowsOf(history)[..n] == RowsOf(history[..n]);
    }
  }

  /** A row with a memory id tells the whole entry it was written for. */
  lemma RowTellsEntry(a: Entry, b: Entry, memoryId: string)
    requires RowOf(a) == RowOf(b) && a.memoryId == Some(memoryId) && memoryId != ""
    ensures a == b
  {
    FormatReadsBack(a.at);
    FormatReadsBack(b.at);
  }

  lemma RowIsForMemory(history: seq<Entry>, memoryId: string, x: Row)
    requires memoryId != ""
    ensures x in ForMemory(RowsOf(history), memoryId) <==>
      exists e :: e in history && e.memoryId == Some(memoryId) && RowOf(e) == x
  {
    var rows := RowsOf(history);
    if x in ForMemory(rows, memoryId) {
      var i :| 0 <= i < |rows| && rows[i] == x;
      assert history[i] in history;
    }
    if e :| e in history && e.memoryId == Some(memoryId) && RowOf(e) == x {
      var i :| 0 <= i < |history| && history[i] == e;
      assert rows[i] == x;
    }
  }

  /** After any appends the trail of a memory is exactly what was appended about it, as often as it was,
      or an error if some of that is another tenant's. */
  lemma TrailIsTheHistory(history: seq<Entry>, memoryId: string, tenant: string, r: Result<seq<Entry>, StoreError>)
    requires memoryId != "" && IsAnswer(RowsOf(history), memoryId, tenant, r)
    ensures if exists e :: e in history && e.memoryId == Some(memoryId) && e.tenant != tenant then r == Err(TenantViolation)
            else r.Ok? && |r.value| == CountOf(history, memoryId)
                 && forall e :: e in r.value <==> e in history && e.memoryId == Some(memoryId)
  {
    var found := ForMemory(RowsOf(history), memoryId);
    RowsAreCounted(history, memoryId);
    if e :| e in history && e.memoryId == Some(memoryId) && e.tenant != tenant {
      RowIsForMemory(history, memoryId, RowOf(e));
      assert RowOf(e) in found;
    } else {
      forall x | x in found ensures x.tenant == tenant {
        RowIsForMemory(history, memoryId, x);
      }
      assert |RowsOf(r.value)| == |multiset(RowsOf(r.value))| == |multiset(found)| == |found|;
      forall e ensures e in r.value <==> e in history && e.memoryId == Some(memoryId) {
        AnsweredIff(history, memoryId, r.value, e);
      }
    }
  }

  lemma AnsweredIff(history: seq<Entry>, memoryId: string, answer: seq<Entry>, e: Entry)
    requires memoryId != "" && multiset(RowsOf(answer)) == multiset(ForMemory(RowsOf(history), memoryId))
    ensures e in answer <==> e in history && e.memoryId == Some(memoryId)
  {
    var found := ForMemory(RowsOf(history), memoryId);
    if e in answer {
      var i :| 0 <= i < |answer| && answer[i] == e;
      assert RowsOf(answer)[i] == RowOf(e);
      assert RowOf(e) in multiset(found);
      assert RowOf(e) in found;
      RowIsForMemory(history, memoryId, RowOf(e));
      var h :| h in history && h.memoryId == Some(memoryId) && RowOf(h) == RowOf(e);
      RowTellsEntry(h, e, memoryId);
    }
    if e in history && e.memoryId == Some(memoryId) {
      RowIsForMemory(history, memoryId, RowOf(e));
      assert RowOf(e) in multiset(RowsOf(answer));
      var i :| 0 <= i < |answer| && RowsOf(answer)[i] == RowOf(e);
      assert answer[i] in answer;
      RowTellsEntry(e, answer[i], memoryId);
    }
  }
}
