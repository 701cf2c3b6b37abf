/** The memories table, and the full-text index that three triggers keep in step with it. */
module MemoryTable {
  import opened Common

  datatype Memory = Memory(
    id: string, title: string, content: string, scope: string, category: string, importance: nat,
    workspaceName: Option<string>, projectPath: Option<string>, sessionId: Option<string>, tags: string, source: string,
    createdAt: string, updatedAt: string, accessedAt: string, accessCount: nat, isDeleted: bool)

  datatype Row = Row(rowid: nat, memory: Memory)

  datatype Column = Title | Content | Tags

  /** One occurrence of a token in a column. */
  datatype Entry = Entry(column: Column, position: nat, token: string)

  type Tokenizer = string -> seq<string>

  type Index = map<nat, multiset<Entry>>

  datatype Table = Table(rows: seq<Row>, index: Index)

  // ---------- The index ----------

  function Occurrences(column: Column, tokens: seq<string>): multiset<Entry>
    decreases |tokens|
  {
    if tokens == [] then multiset{}
    else Occurrences(column, tokens[..|tokens| - 1]) + multiset{Entry(column, |tokens| - 1, tokens[|tokens| - 1])}
  }

  /** What a memory contributes to the index. */
  function Entries(tok: Tokenizer, m: Memory): multiset<Entry> {
    Occurrences(Title, tok(m.title)) + Occurrences(Content, tok(m.content)) + Occurrences(Tags, tok(m.tags))
  }

  lemma {:induction false} OccurrencesAt(column: Column, tokens: seq<string>, e: Entry)
    ensures Occurrences(column, tokens)[e]
         == if e.column == column && e.position < |tokens| && tokens[e.position] == e.token then 1 else 0
    decreases |tokens|
  {
    if tokens != [] {
      OccurrencesAt(column, tokens[..|tokens| - 1], e);
    }
  }

  /** Every token of the title, the content and the tags is indexed once, under its place, and nothing else is. */
  lemma EntriesAt(tok: Tokenizer, m: Memory, e: Entry)
    ensures var text := match e.column case Title => m.title case Content => m.content case Tags => m.tags;
            var tokens := tok(text);
            Entries(tok, m)[e] == if e.position < |tokens| && tokens[e.position] == e.token then 1 else 0
  {
    hide Occurrences;
    OccurrencesAt(Title, tok(m.title), e);
    OccurrencesAt(Content, tok(m.content), e);
    OccurrencesAt(Tags, tok(m.tags), e);
  }

  function Postings(index: Index, rowid: nat): multiset<Entry> {
    if rowid in index then index[rowid] else multiset{}
  }

  function Put(index: Index, rowid: nat, entries: multiset<Entry>): Index {
    if entries == multiset{} then index - {rowid} else index[rowid := entries]
  }

  /** Trigger `memories_ai`: the new row's tokens are added. */
  function AfterInsert(tok: Tokenizer, index: Index, row: Row): Index {
    Put(index, row.rowid, Postings(index, row.rowid) + Entries(tok, row.memory))
  }

  /** Trigger `memories_ad`: the tokens of the values handed over are taken out, whatever was indexed. */
  function AfterDelete(tok: Tokenizer, index: Index, row: Row): Index {
    Put(index, row.rowid, Postings(index, row.rowid) - Entries(tok, row.memory))
  }

  /** Trigger `memories_au`. */
  function AfterUpdate(tok: Tokenizer, index: Index, before: Row, after: Row): Index {
    AfterInsert(tok, AfterDelete(tok, index, before), after)
  }

  /** An index built from scratch. */
  function Rebuild(tok: Tokenizer, rows: seq<Row>): Index
    decreases |rows|
  {
    if rows == [] then map[] else AfterInsert(tok, Rebuild(tok, rows[..|rows| - 1]), rows[|rows| - 1])
  }

  // ---------- Statements ----------

  predicate ImportanceAllowed(m: Memory) {
    1 <= m.importance <= 5
  }

  predicate Taken(rows: seq<Row>, id: string) {
    exists i | 0 <= i < |rows| :: rows[i].memory.id == id
  }

  /** One more than the largest row id. */
  function NextRowid(rows: seq<Row>): nat
    decreases |rows|
  {
    if rows == [] then 1
    else
      var others, last := NextRowid(rows[..|rows| - 1]), rows[|rows| - 1].rowid;
      if others <= last then last + 1 else others
  }

  datatype Where = ById(id: string) | LiveById(id: string) {
    predicate Holds(m: Memory) {
      m.id == id && (LiveById? ==> !m.isDeleted)
    }
  }

  datatype Assignment =
    | SetTitle(text: string, now: string)
    | SetContent(text: string, now: string)
    | SetCategory(text: string, now: string)
    | SetImportance(importance: nat, now: string)
    | SetTags(text: string, now: string)
    | SetDeleted(now: string)
    | CountAccess(now: string)
  {
    function Apply(m: Memory): Memory {
      match this
      case SetTitle(text, now) => m.(title := text, updatedAt := now)
      case SetContent(text, now) => m.(content := text, updatedAt := now)
      case SetCategory(text, now) => m.(category := text, updatedAt := now)
      case SetImportance(importance, now) => m.(importance := importance, updatedAt := now)
      case SetTags(text, now) => m.(tags := text, updatedAt := now)
      case SetDeleted(now) => m.(isDeleted := true, updatedAt := now)
      case CountAccess(now) => m.(accessedAt := now, accessCount := m.accessCount + 1)
    }
  }

  datatype Statement =
    | Insert(memory: Memory)
    | Update(assignment: Assignment, condition: Where)
    | Delete(condition: Where)

  /** The first `n` rows of an update, each with its trigger. */
  function Updated(tok: Tokenizer, t: Table, a: Assignment, w: Where, n: nat): (r: Table)
    requires n <= |t.rows|
    ensures |r.rows| == |t.rows|
  {
    if n == 0 then t
    else
      var before := Updated(tok, t, a, w, n - 1);
      var row := before.rows[n - 1];
      if w.Holds(row.memory) then
        var changed := row.(memory := a.Apply(row.memory));
        Table(before.rows[n - 1 := changed], AfterUpdate(tok, before.index, row, changed))
      else before
  }

  /** The rows a deletion keeps among the first `n`, and the index after it. */
  function Deleted(tok: Tokenizer, t: Table, w: Where, n: nat): Table
    requires n <= |t.rows|
  {
    if n == 0 then Table([], t.index)
    else
      var before, row := Deleted(tok, t, w, n - 1), t.rows[n - 1];
      if w.Holds(row.memory) then before.(index := AfterDelete(tok, before.index, row))
      else before.(rows := before.rows + [row])
  }

  predicate UpdateAllowed(rows: seq<Row>, a: Assignment, w: Where) {
    forall i | 0 <= i < |rows| :: w.Holds(rows[i].memory) ==> ImportanceAllowed(a.Apply(rows[i].memory))
  }

  /** A statement that breaks a constraint fails as a whole. */
  function Execute(tok: Tokenizer, t: Table, s: Statement): Option<Table> {
    match s
    case Insert(m) =>
      if Taken(t.rows, m.id) || !ImportanceAllowed(m) then None
      else
        var row := Row(NextRowid(t.rows), m);
        Some(Table(t.rows + [row], AfterInsert(tok, t.index, row)))
    case Update(a, w) =>
      if UpdateAllowed(t.rows, a, w) then Some(Updated(tok, t, a, w, |t.rows|)) else None
    case Delete(w) => Some(Deleted(tok, t, w, |t.rows|))
  }

  /** A failed statement changes nothing. */
  function Run(tok: Tokenizer, t: Table, statements: seq<Statement>): Table
    decreases |statements|
  {
    if statements == [] then t
    else Run(tok, Execute(tok, t, statements[0]).GetOr(t), statements[1..])
  }

  const EMPTY := Table([], map[])

  // ---------- The index follows the table ----------

  ghost predicate Numbered(rows: seq<Row>) {
    forall i, j | 0 <= i < j < |rows| :: rows[i].rowid < rows[j].rowid
  }

  ghost predicate OwnIds(rows: seq<Row>) {
    forall i, j | 0 <= i < j < |rows| :: rows[i].memory.id != rows[j].memory.id
  }

  ghost predicate InRange(rows: seq<Row>) {
    forall i | 0 <= i < |rows| :: ImportanceAllowed(rows[i].memory)
  }

  ghost predicate HasRow(rows: seq<Row>, rowid: nat) {
    exists i | 0 <= i < |rows| :: rows[i].rowid == rowid
  }

  /** Each row's tokens are indexed under its row id, and nothing else is. */
  ghost predicate Indexed(tok: Tokenizer, rows: seq<Row>, index: Index) {
    && (forall i | 0 <= i < |rows| :: Postings(index, rows[i].rowid) == Entries(tok, rows[i].memory))
    && (forall rowid | rowid in index :: index[rowid] != multiset{} && HasRow(rows, rowid))
  }

  ghost predicate Valid(tok: Tokenizer, t: Table) {
    Numbered(t.rows) && OwnIds(t.rows) && InRange(t.rows) && Indexed(tok, t.rows, t.index)
  }

  lemma PutThenLookUp(index: Index, rowid: nat, entries: multiset<Entry>)
    ensures Postings(Put(index, rowid, entries), rowid) == entries
    ensures forall other | other != rowid :: Postings(Put(index, rowid, entries), other) == Postings(index, other)
    ensures forall r | r in Put(index, rowid, entries) && r != rowid ::
              r in index && Put(index, rowid, entries)[r] == index[r]
    ensures rowid in Put(index, rowid, entries) ==>
              entries != multiset{} && Put(index, rowid, entries)[rowid] == entries
  {
  }

  lemma {:induction false} NextRowidIsNew(rows: seq<Row>)
    ensures forall i | 0 <= i < |rows| :: rows[i].rowid < NextRowid(rows)
    decreases |rows|
  {
    if rows != [] {
      NextRowidIsNew(rows[..|rows| - 1]);
      assert forall i | 0 <= i < |rows| - 1 :: rows[..|rows| - 1][i] == rows[i];
    }
  }

  lemma InsertIndexes(tok: Tokenizer, rows: seq<Row>, index: Index, row: Row)
    requires Indexed(tok, rows, index) && !HasRow(rows, row.rowid)
    ensures Indexed(tok, rows + [row], AfterInsert(tok, index, row))
  {
    hide Entries, Put;
    var all, after := rows + [row], AfterInsert(tok, index, row);
    assert row.rowid !in index;
    PutThenLookUp(index, row.rowid, Entries(tok, row.memory));
    assert Postings(index, row.rowid) + Entries(tok, row.memory) == Entries(tok, row.memory);
    forall i | 0 <= i < |all| ensures Postings(after, all[i].rowid) == Entries(tok, all[i].memory) {
      if i < |rows| { assert all[i] == rows[i]; }
    }
    forall r | r in after ensures after[r] != multiset{} && HasRow(all, r) {
      if r == row.rowid {
        assert all[|rows|].rowid == r;
      } else {
        var i :| 0 <= i < |rows| && rows[i].rowid == r;
        assert all[i].rowid == r;
      }
    }
  }

  /** Replacing the tokens a row has in the index leaves the new ones under its row id, and the other postings alone. */
  lemma UpdateThenLookUp(tok: Tokenizer, index: Index, before: Row, changed: Row)
    requires Postings(index, before.rowid) == Entries(tok, before.memory) && changed.rowid == before.rowid
    ensures var after := AfterUpdate(tok, index, before, changed);
            && Postings(after, before.rowid) == Entries(tok, changed.memory)
            && (forall other | other != before.rowid :: Postings(after, other) == Postings(index, other))
            && (before.rowid in after ==> after[before.rowid] != multiset{})
            && (forall r | r in after && r != before.rowid :: r in index && after[r] == index[r])
  {
    hide Entries, Put, Postings;
    var between := AfterDelete(tok, index, before);
    assert Postings(index, before.rowid) - Entries(tok, before.memory) == multiset{};
    PutThenLookUp(index, before.rowid, multiset{});
    assert Postings(between, before.rowid) + Entries(tok, changed.memory) == Entries(tok, changed.memory);
    PutThenLookUp(between, before.rowid, Entries(tok, changed.memory));
  }

  lemma UpdateIndexes(tok: Tokenizer, rows: seq<Row>, index: Index, n: nat, changed: Row)
    requires Numbered(rows) && Indexed(tok, rows, index) && n < |rows| && changed.rowid == rows[n].rowid
    ensures Numbered(rows[n := changed]) && Indexed(tok, rows[n := changed], AfterUpdate(tok, index, rows[n], changed))
  {
    hide Entries, Postings, AfterUpdate;
    var rowid, all, after := rows[n].rowid, rows[n := changed], AfterUpdate(tok, index, rows[n], changed);
    UpdateThenLookUp(tok, index, rows[n], changed);
    forall i | 0 <= i < |all| ensures Postings(after, all[i].rowid) == Entries(tok, all[i].memory) {
      if i != n { assert all[i] == rows[i] && rows[i].rowid != rowid; }
    }
    forall r | r in after ensures after[r] != multiset{} && HasRow(all, r) {
      if r == rowid {
        assert all[n].rowid == r;
      } else {
        var i :| 0 <= i < |rows| && rows[i].rowid == r;
        assert all[i].rowid == r;
      }
    }
  }

  lemma {:induction false} UpdatedIndexes(tok: Tokenizer, t: Table, a: Assignment, w: Where, n: nat)
    requires Numbered(t.rows) && Indexed(tok, t.rows, t.index) && n <= |t.rows|
    ensures var u := Updated(tok, t, a, w, n); Numbered(u.rows) && Indexed(tok, u.rows, u.index)
  {
    hide Indexed, Numbered, AfterUpdate, Assignment.Apply, Where.Holds;
    if n > 0 {
      UpdatedIndexes(tok, t, a, w, n - 1);
      var before := Updated(tok, t, a, w, n - 1);
      var row := before.rows[n - 1];
      UpdateIndexes(tok, before.rows, before.index, n - 1, row.(memory := a.Apply(row.memory)));
    }
  }

  /** An update changes exactly the rows that meet its condition. */
  lemma {:induction false} UpdatedRows(tok: Tokenizer, t: Table, a: Assignment, w: Where, n: nat)
    requires n <= |t.rows|
    ensures var rows := Updated(tok, t, a, w, n).rows;
            forall i | 0 <= i < |rows| ::
              rows[i] == if i < n && w.Holds(t.rows[i].memory) then t.rows[i].(memory := a.Apply(t.rows[i].memory))
                  else t.rows[i]
  {
    hide AfterUpdate, Assignment.Apply, Where.Holds;
    if n > 0 {
      UpdatedRows(tok, t, a, w, n - 1);
    }
  }

  /** Row `i` of a table with one row taken out is row `i` or `i + 1` of the whole table. */
  lemma WithoutRow(kept: seq<Row>, row: Row, rest: seq<Row>)
    requires Numbered(kept + [row] + rest)
    ensures Numbered(kept + rest)
    ensures forall i | 0 <= i < |kept + rest| ::
              && (kept + rest)[i] == (kept + [row] + rest)[if i < |kept| then i else i + 1]
              && (kept + rest)[i].rowid != row.rowid
  {
    var before, all := kept + [row] + rest, kept + rest;
    assert before[|kept|] == row;
    forall i | 0 <= i < |all| ensures all[i] == before[if i < |kept| then i else i + 1] {}
  }

  lemma OtherRowsStay(kept: seq<Row>, row: Row, rest: seq<Row>, rowid: nat)
    requires HasRow(kept + [row] + rest, rowid) && rowid != row.rowid
    ensures HasRow(kept + rest, rowid)
  {
    var i :| 0 <= i < |kept + [row] + rest| && (kept + [row] + rest)[i].rowid == rowid;
    assert (kept + rest)[if i < |kept| then i else i - 1].rowid == rowid;
  }

  /** Taking out the tokens a row has in the index leaves nothing under its row id, and the other postings alone. */
  lemma DeleteThenLookUp(tok: Tokenizer, index: Index, row: Row)
    requires Postings(index, row.rowid) == Entries(tok, row.memory)
    ensures var after := AfterDelete(tok, index, row);
            && row.rowid !in after && Postings(after, row.rowid) == multiset{}
            && (forall other | other != row.rowid :: Postings(after, other) == Postings(index, other))
            && (forall r | r in after :: r in index && after[r] == index[r])
  {
    hide Entries, Put, Postings;
    assert Postings(index, row.rowid) - Entries(tok, row.memory) == multiset{};
    PutThenLookUp(index, row.rowid, multiset{});
  }

  lemma DropRow(tok: Tokenizer, kept: seq<Row>, row: Row, rest: seq<Row>, index: Index)
    requires Numbered(kept + [row] + rest) && Indexed(tok, kept + [row] + rest, index)
    ensures Numbered(kept + rest) && Indexed(tok, kept + rest, AfterDelete(tok, index, row))
  {
    hide Entries, Postings, HasRow, AfterDelete, Numbered;
    var before, all, after := kept + [row] + rest, kept + rest, AfterDelete(tok, index, row);
    assert before[|kept|] == row;
    WithoutRow(kept, row, rest);
    DeleteThenLookUp(tok, index, row);
    forall i | 0 <= i < |all| ensures Postings(after, all[i].rowid) == Entries(tok, all[i].memory) {
      assert all[i] == before[if i < |kept| then i else i + 1];
    }
    forall r | r in after ensures after[r] != multiset{} && HasRow(all, r) {
      OtherRowsStay(kept, row, rest, r);
    }
  }

  lemma {:induction false} DeletedIndexes(tok: Tokenizer, t: Table, w: Where, n: nat)
    requires Numbered(t.rows) && Indexed(tok, t.rows, t.index) && n <= |t.rows|
    ensures var d := Deleted(tok, t, w, n);
            Numbered(d.rows + t.rows[n..]) && Indexed(tok, d.rows + t.rows[n..], d.index)
    ensures forall r | r in Deleted(tok, t, w, n).rows :: r in t.rows && !w.Holds(r.memory)
    ensures forall r | r in t.rows[..n] && !w.Holds(r.memory) :: r in Deleted(tok, t, w, n).rows
  {
    hide Indexed, Numbered, AfterDelete, Where.Holds;
    if n == 0 {
      assert [] + t.rows[0..] == t.rows;
    } else {
      DeletedIndexes(tok, t, w, n - 1);
      var before, row, rest := Deleted(tok, t, w, n - 1), t.rows[n - 1], t.rows[n..];
      assert t.rows[n - 1..] == [row] + rest;
      assert before.rows + t.rows[n - 1..] == before.rows + [row] + rest;
      assert t.rows[..n] == t.rows[..n - 1] + [row];
      if w.Holds(row.memory) {
        DropRow(tok, before.rows, row, rest, before.index);
      }
    }
  }

  lemma {:induction false} DeletedKeepsOwnIds(tok: Tokenizer, t: Table, w: Where, n: nat)
    requires OwnIds(t.rows) && n <= |t.rows|
    ensures OwnIds(Deleted(tok, t, w, n).rows)
    ensures forall r | r in Deleted(tok, t, w, n).rows :: exists i :: 0 <= i < n && t.rows[i] == r
  {
    hide AfterDelete, Where.Holds;
    if n > 0 {
      DeletedKeepsOwnIds(tok, t, w, n - 1);
      var before := Deleted(tok, t, w, n - 1).rows;
      forall i | 0 <= i < |before| ensures before[i].memory.id != t.rows[n - 1].memory.id {
        assert before[i] in before;
        var j :| 0 <= j < n - 1 && t.rows[j] == before[i];
      }
    }
  }

  lemma ChangedKeepIds(rows: seq<Row>, changed: seq<Row>, a: Assignment, w: Where)
    requires OwnIds(rows) && |changed| == |rows|
    requires forall i | 0 <= i < |rows| ::
               changed[i] == if w.Holds(rows[i].memory) then rows[i].(memory := a.Apply(rows[i].memory)) else rows[i]
    ensures OwnIds(changed)
  {
    hide Where.Holds;
    forall i | 0 <= i < |rows| ensures changed[i].memory.id == rows[i].memory.id {}
  }

  lemma ChangedKeepRange(rows: seq<Row>, changed: seq<Row>, a: Assignment, w: Where)
    requires InRange(rows) && UpdateAllowed(rows, a, w) && |changed| == |rows|
    requires forall i | 0 <= i < |rows| ::
               changed[i] == if w.Holds(rows[i].memory) then rows[i].(memory := a.Apply(rows[i].memory)) else rows[i]
    ensures InRange(changed)
  {
    hide Where.Holds, Assignment.Apply, ImportanceAllowed;
  }

  lemma UpdateKeepsValid(tok: Tokenizer, t: Table, a: Assignment, w: Where)
    requires Valid(tok, t) && UpdateAllowed(t.rows, a, w)
    ensures Valid(tok, Updated(tok, t, a, w, |t.rows|))
  {
    hide Indexed, Numbered, OwnIds, InRange, Where.Holds, Assignment.Apply, Updated, UpdateAllowed;
    UpdatedIndexes(tok, t, a, w, |t.rows|);
    UpdatedRows(tok, t, a, w, |t.rows|);
    ChangedKeepIds(t.rows, Updated(tok, t, a, w, |t.rows|).rows, a, w);
    ChangedKeepRange(t.rows, Updated(tok, t, a, w, |t.rows|).rows, a, w);
  }

  lemma InsertKeepsValid(tok: Tokenizer, t: Table, m: Memory)
    requires Valid(tok, t) && !Taken(t.rows, m.id) && ImportanceAllowed(m)
    ensures Valid(tok, Execute(tok, t, Insert(m)).value)
  {
    hide Indexed, AfterInsert, NextRowid;
    NextRowidIsNew(t.rows);
    InsertIndexes(tok, t.rows, t.index, Row(NextRowid(t.rows), m));
  }

  lemma DeleteKeepsValid(tok: Tokenizer, t: Table, w: Where)
    requires Valid(tok, t)
    ensures Valid(tok, Execute(tok, t, Delete(w)).value)
  {
    hide Indexed, Numbered, AfterDelete, ImportanceAllowed;
    DeletedIndexes(tok, t, w, |t.rows|);
    DeletedKeepsOwnIds(tok, t, w, |t.rows|);
    var kept := Deleted(tok, t, w, |t.rows|).rows;
    assert kept + t.rows[|t.rows|..] == kept;
    assert forall i | 0 <= i < |kept| :: kept[i] in t.rows;
  }

  /** Every statement keeps the keys unique, the importance in range and the index in step. */
  lemma ExecuteKeepsValid(tok: Tokenizer, t: Table, s: Statement)
    requires Valid(tok, t)
    ensures Valid(tok, Execute(tok, t, s).GetOr(t))
  {
    hide Valid, Updated, Deleted, UpdateAllowed, Taken, ImportanceAllowed;
    match s
    case Insert(m) =>
      if !Taken(t.rows, m.id) && ImportanceAllowed(m) { InsertKeepsValid(tok, t, m); }
    case Update(a, w) =>
      if UpdateAllowed(t.rows, a, w) { UpdateKeepsValid(tok, t, a, w); }
    case Delete(w) =>
      DeleteKeepsValid(tok, t, w);
  }

  lemma {:induction false} RunKeepsValid(tok: Tokenizer, t: Table, statements: seq<Statement>)
    requires Valid(tok, t)
    ensures Valid(tok, Run(tok, t, statements))
    decreases |statements|
  {
    hide Valid, Execute;
    if statements != [] {
      ExecuteKeepsValid(tok, t, statements[0]);
      RunKeepsValid(tok, Execute(tok, t, statements[0]).GetOr(t), statements[1..]);
    }
  }

  lemma {:induction false} RebuildIndexes(tok: Tokenizer, rows: seq<Row>)
    requires Numbered(rows)
    ensures Indexed(tok, rows, Rebuild(tok, rows))
    decreases |rows|
  {
    hide AfterInsert, Entries;
    if rows != [] {
      var most, last := rows[..|rows| - 1], rows[|rows| - 1];
      RebuildIndexes(tok, most);
      InsertIndexes(tok, most, Rebuild(tok, most), last);
      assert most + [last] == rows;
    }
  }

  lemma IndexIncluded(tok: Tokenizer, rows: seq<Row>, a: Index, b: Index)
    requires Indexed(tok, rows, a) && Indexed(tok, rows, b)
    ensures forall r | r in a :: r in b && a[r] == b[r]
  {
    hide Entries;
    forall r | r in a ensures r in b && a[r] == b[r] {
      var i :| 0 <= i < |rows| && rows[i].rowid == r;
      assert Postings(a, r) == Postings(b, r);
    }
  }

  /** Rows have one index only. */
  lemma IndexIsUnique(tok: Tokenizer, rows: seq<Row>, a: Index, b: Index)
    requires Indexed(tok, rows, a) && Indexed(tok, rows, b)
    ensures a == b
  {
    hide Indexed;
    IndexIncluded(tok, rows, a, b);
    IndexIncluded(tok, rows, b, a);
  }

  lemma ValidIsRebuilt(tok: Tokenizer, t: Table)
    requires Valid(tok, t)
    ensures t.index == Rebuild(tok, t.rows)
  {
    RebuildIndexes(tok, t.rows);
    IndexIsUnique(tok, t.rows, t.index, Rebuild(tok, t.rows));
  }

  /** After any statements on an empty database the index is the one built anew from the table. */
  lemma IndexIsRebuilt(tok: Tokenizer, statements: seq<Statement>)
    ensures var t := Run(tok, EMPTY, statements);
            t.index == Rebuild(tok, t.rows) && OwnIds(t.rows) && InRange(t.rows)
  {
    hide Run, Rebuild;
    RunKeepsValid(tok, EMPTY, statements);
    ValidIsRebuilt(tok, Run(tok, EMPTY, statements));
  }
}
