/** The operations on memories, each a few statements on the table, and searching through the index. */
module MemoryRepository {
  import opened Common
  import opened Text
  import opened MemoryTable

  // ---------- Changing a memory ----------

  datatype DbError = ConstraintFailed

  datatype UpdateRequest = UpdateRequest(
    title: Option<string>, content: Option<string>, category: Option<string>, importance: Option<nat>,
    tags: Option<seq<string>>)

  type Render = seq<string> -> string

  predicate Live(rows: seq<Row>, id: string) {
    exists i | 0 <= i < |rows| :: rows[i].memory.id == id && !rows[i].memory.isDeleted
  }

  function OptionalAssignment<T>(field: Option<T>, assign: T -> Assignment): (r: seq<Assignment>)
    ensures |r| <= 1
  {
    if field.Some? then [assign(field.value)] else []
  }

  /** The assignments of an update, one statement each. */
  function Assignments(req: UpdateRequest, render: Render, now: string): seq<Assignment> {
    OptionalAssignment(req.title, (text: string) => SetTitle(text, now))
    + (OptionalAssignment(req.content, (text: string) => SetContent(text, now))
    + (OptionalAssignment(req.category, (text: string) => SetCategory(text, now))
    + (OptionalAssignment(req.importance, (n: nat) => SetImportance(n, now))
    + OptionalAssignment(req.tags, (tags: seq<string>) => SetTags(render(tags), now)))))
  }

  datatype Outcome<T> = Outcome(result: Result<T, DbError>, table: Table)

  /** Statements run one after the other until one fails; the ones before it stay. */
  function Assigned(tok: Tokenizer, t: Table, id: string, assignments: seq<Assignment>): Outcome<bool>
    decreases |assignments|
  {
    if assignments == [] then Outcome(Ok(true), t)
    else
      match Execute(tok, t, Update(assignments[0], ById(id)))
      case None => Outcome(Err(ConstraintFailed), t)
      case Some(after) => Assigned(tok, after, id, assignments[1..])
  }

  function UpdateMemory(
    tok: Tokenizer, render: Render, t: Table, id: string, req: UpdateRequest, now: string): Outcome<bool>
  {
    if Live(t.rows, id) then Assigned(tok, t, id, Assignments(req, render, now)) else Outcome(Ok(false), t)
  }

  // ---------- What an update amounts to ----------

  predicate Allowed(req: UpdateRequest) {
    req.importance.Some? ==> 1 <= req.importance.value <= 5
  }

  /** The memory with the requested fields, stamped if there are any. */
  function Merged(m: Memory, req: UpdateRequest, render: Render, now: string): Memory {
    m.(title := req.title.GetOr(m.title),
       content := req.content.GetOr(m.content),
       category := req.category.GetOr(m.category),
       importance := req.importance.GetOr(m.importance),
       tags := if req.tags.Some? then render(req.tags.value) else m.tags,
       updatedAt := if req == UpdateRequest(None, None, None, None, None) then m.updatedAt else now)
  }

  function ApplyAll(assignments: seq<Assignment>, m: Memory): Memory
    decreases |assignments|
  {
    if assignments == [] then m else ApplyAll(assignments[1..], assignments[0].Apply(m))
  }

  /** An assignment that cannot put the importance out of range. */
  predicate KeepsRange(a: Assignment) {
    a.SetImportance? ==> 1 <= a.importance <= 5
  }

  lemma OneRowUpdated(tok: Tokenizer, t: Table, id: string, a: Assignment, i: nat)
    requires Valid(tok, t) && i < |t.rows| && t.rows[i].memory.id == id
    ensures var after := Execute(tok, t, Update(a, ById(id)));
            && (after.Some? <==> KeepsRange(a))
            && (after.Some? ==>
                  var changed := t.rows[i].(memory := a.Apply(t.rows[i].memory));
                  after.value.rows == t.rows[i := changed] && changed.memory.id == id)
  {
    hide Updated, Indexed, Numbered;
    UpdatedRows(tok, t, a, ById(id), |t.rows|);
    assert InRange(t.rows) && OwnIds(t.rows);
    if KeepsRange(a) {
      assert UpdateAllowed(t.rows, a, ById(id));
    } else {
      assert ById(id).Holds(t.rows[i].memory);
    }
  }

  /** With its id taken once, a row is changed alone, by as many assignments as keep its importance in range. */
  lemma {:induction false} AssignedToRow(tok: Tokenizer, t: Table, id: string, assignments: seq<Assignment>, i: nat)
    requires Valid(tok, t) && i < |t.rows| && t.rows[i].memory.id == id
    ensures var r := Assigned(tok, t, id, assignments);
            && Valid(tok, r.table)
            && ((forall a | a in assignments :: KeepsRange(a))
                ==> r.result == Ok(true)
                    && r.table.rows == t.rows[i := t.rows[i].(memory := ApplyAll(assignments, t.rows[i].memory))])
    decreases |assignments|
  {
    hide Valid, Execute, KeepsRange;
    if assignments == [] {
      assert t.rows == t.rows[i := t.rows[i]];
    } else {
      var a := assignments[0];
      ExecuteKeepsValid(tok, t, Update(a, ById(id)));
      OneRowUpdated(tok, t, id, a, i);
      var after := Execute(tok, t, Update(a, ById(id)));
      if after.Some? {
        AssignedToRow(tok, after.value, id, assignments[1..], i);
      }
    }
  }

  lemma {:induction false} AssignedStops(
    tok: Tokenizer, t: Table, id: string, xs: seq<Assignment>, bad: Assignment, ys: seq<Assignment>, i: nat)
    requires Valid(tok, t) && i < |t.rows| && t.rows[i].memory.id == id
    requires (forall a | a in xs :: KeepsRange(a)) && !KeepsRange(bad)
    ensures Assigned(tok, t, id, xs + [bad] + ys) == Outcome(Err(ConstraintFailed), Assigned(tok, t, id, xs).table)
    decreases |xs|
  {
    hide Valid, Execute, KeepsRange;
    if xs == [] {
      assert ([] + [bad] + ys)[0] == bad;
      OneRowUpdated(tok, t, id, bad, i);
    } else {
      var a := xs[0];
      assert (xs + [bad] + ys)[0] == a && (xs + [bad] + ys)[1..] == xs[1..] + [bad] + ys;
      assert a in xs;
      ExecuteKeepsValid(tok, t, Update(a, ById(id)));
      OneRowUpdated(tok, t, id, a, i);
      AssignedStops(tok, Execute(tok, t, Update(a, ById(id))).value, id, xs[1..], bad, ys, i);
    }
  }

  /** The part of a request that comes before the importance. */
  function BeforeImportance(req: UpdateRequest): UpdateRequest {
    req.(importance := None, tags := None)
  }

  lemma ApplyNone(m: Memory)
    ensures ApplyAll([], m) == m
  {
  }

  lemma ApplyFirst(optional: seq<Assignment>, rest: seq<Assignment>, m: Memory) returns (next: Memory)
    requires |optional| <= 1
    ensures next == if optional == [] then m else optional[0].Apply(m)
    ensures ApplyAll(optional + rest, m) == ApplyAll(rest, next)
  {
    hide Assignment.Apply;
    if optional == [] {
      assert optional + rest == rest;
      next := m;
    } else {
      ConcatHead(optional, rest);
      assert optional[1..] + rest == rest;
      next := optional[0].Apply(m);
    }
  }

  lemma MergeInTurn(req: UpdateRequest, render: Render, now: string, m: Memory)
    ensures var m1 := if req.title.Some? then SetTitle(req.title.value, now).Apply(m) else m;
            var m2 := if req.content.Some? then SetContent(req.content.value, now).Apply(m1) else m1;
            var m3 := if req.category.Some? then SetCategory(req.category.value, now).Apply(m2) else m2;
            var m4 := if req.importance.Some? then SetImportance(req.importance.value, now).Apply(m3) else m3;
            var m5 := if req.tags.Some? then SetTags(render(req.tags.value), now).Apply(m4) else m4;
            m5 == Merged(m, req, render, now)
  {
  }

  lemma AssignmentsMerge(req: UpdateRequest, render: Render, now: string, m: Memory)
    ensures ApplyAll(Assignments(req, render, now), m) == Merged(m, req, render, now)
  {
    hide ApplyAll, Assignment.Apply;
    var g := OptionalAssignment(req.tags, (tags: seq<string>) => SetTags(render(tags), now));
    var i := OptionalAssignment(req.importance, (n: nat) => SetImportance(n, now)) + g;
    var k := OptionalAssignment(req.category, (text: string) => SetCategory(text, now)) + i;
    var c := OptionalAssignment(req.content, (text: string) => SetContent(text, now)) + k;
    var m1 := ApplyFirst(OptionalAssignment(req.title, (text: string) => SetTitle(text, now)), c, m);
    var m2 := ApplyFirst(OptionalAssignment(req.content, (text: string) => SetContent(text, now)), k, m1);
    var m3 := ApplyFirst(OptionalAssignment(req.category, (text: string) => SetCategory(text, now)), i, m2);
    var m4 := ApplyFirst(OptionalAssignment(req.importance, (n: nat) => SetImportance(n, now)), g, m3);
    var m5 := ApplyFirst(g, [], m4);
    assert g + [] == g;
    ApplyNone(m5);
    MergeInTurn(req, render, now, m);
  }

  lemma AssignmentsKeepRange(req: UpdateRequest, render: Render, now: string)
    requires Allowed(req)
    ensures forall a | a in Assignments(req, render, now) :: KeepsRange(a)
  {
  }

  lemma AssignmentsBreak(
    req: UpdateRequest, render: Render, now: string) returns (bad: Assignment, rest: seq<Assignment>)
    requires !Allowed(req)
    ensures Assignments(req, render, now) == Assignments(BeforeImportance(req), render, now) + [bad] + rest
         && !KeepsRange(bad)
  {
    bad := SetImportance(req.importance.value, now);
    rest := OptionalAssignment(req.tags, (tags: seq<string>) => SetTags(render(tags), now));
  }

  /** An update of a live memory succeeds exactly when its importance is in range, and then writes all of the request.
      When it fails, the fields that come before the importance are written all the same, and the tags are not. */
  lemma UpdateMeaning(tok: Tokenizer, render: Render, t: Table, id: string, req: UpdateRequest, now: string, i: nat)
    requires Valid(tok, t) && i < |t.rows| && t.rows[i].memory.id == id && !t.rows[i].memory.isDeleted
    ensures var r := UpdateMemory(tok, render, t, id, req, now);
            var written := if Allowed(req) then req else BeforeImportance(req);
            && r.result == (if Allowed(req) then Ok(true) else Err(ConstraintFailed))
            && r.table.rows == t.rows[i := t.rows[i].(memory := Merged(t.rows[i].memory, written, render, now))]
            && Valid(tok, r.table)
  {
    hide Valid, Assigned, Assignments, Merged, KeepsRange, ApplyAll;
    var written := if Allowed(req) then req else BeforeImportance(req);
    AssignmentsMerge(written, render, now, t.rows[i].memory);
    AssignmentsKeepRange(written, render, now);
    AssignedToRow(tok, t, id, Assignments(written, render, now), i);
    if !Allowed(req) {
      var bad, rest := AssignmentsBreak(req, render, now);
      AssignedStops(tok, t, id, Assignments(written, render, now), bad, rest, i);
    }
  }

  /** An update of a memory that is not there, or deleted, does nothing. */
  lemma UpdateOfMissing(tok: Tokenizer, render: Render, t: Table, id: string, req: UpdateRequest, now: string)
    requires forall i | 0 <= i < |t.rows| && t.rows[i].memory.id == id :: t.rows[i].memory.isDeleted
    ensures UpdateMemory(tok, render, t, id, req, now) == Outcome(Ok(false), t)
  {
  }

  // ---------- What a deletion and an access amount to ----------

  /** A statement that sets no importance succeeds, and changes the rows that meet its condition. */
  lemma StatementMeaning(tok: Tokenizer, t: Table, a: Assignment, w: Where)
    requires Valid(tok, t) && !a.SetImportance?
    ensures var after := Execute(tok, t, Update(a, w));
            && after.Some? && Valid(tok, after.value) && |after.value.rows| == |t.rows|
            && forall i | 0 <= i < |t.rows| ::
                 after.value.rows[i]
                   == if w.Holds(t.rows[i].memory) then t.rows[i].(memory := a.Apply(t.rows[i].memory)) else t.rows[i]
  {
    assert UpdateAllowed(t.rows, a, w) by { assert InRange(t.rows); }
    hide Valid, Updated, Where.Holds, Assignment.Apply, UpdateAllowed;
    ExecuteKeepsValid(tok, t, Update(a, w));
    UpdatedRows(tok, t, a, w, |t.rows|);
  }

  /** The live row of that id is marked and stamped, and all else is as before. */
  ghost predicate OnlyDeleted(before: seq<Row>, after: seq<Row>, id: string, now: string) {
    && |after| == |before|
    && forall i | 0 <= i < |before| ::
         && after[i].rowid == before[i].rowid
         && var m := before[i].memory;
            after[i].memory == if m.id == id && !m.isDeleted then m.(isDeleted := true, updatedAt := now) else m
  }

  /** The row of that id has one access more, at that time, and all else is as before. */
  ghost predicate OnlyTouched(before: seq<Row>, after: seq<Row>, id: string, now: string) {
    && |after| == |before|
    && forall i | 0 <= i < |before| ::
         && after[i].rowid == before[i].rowid
         && var m := before[i].memory;
            after[i].memory == if m.id == id then m.(accessedAt := now, accessCount := m.accessCount + 1) else m
  }

  /** Deleting marks the live row of that id, which then is live no more. */
  lemma DeleteMeaning(tok: Tokenizer, t: Table, id: string, now: string)
    requires Valid(tok, t)
    ensures var after := Execute(tok, t, Update(SetDeleted(now), LiveById(id)));
            && after.Some? && Valid(tok, after.value)
            && OnlyDeleted(t.rows, after.value.rows, id, now) && !Live(after.value.rows, id)
  {
    hide Valid, Execute;
    StatementMeaning(tok, t, SetDeleted(now), LiveById(id));
  }

  lemma TouchMeaning(tok: Tokenizer, t: Table, id: string, now: string)
    requires Valid(tok, t)
    ensures var after := Execute(tok, t, Update(CountAccess(now), ById(id)));
            && after.Some? && Valid(tok, after.value) && OnlyTouched(t.rows, after.value.rows, id, now)
  {
    hide Valid, Execute;
    StatementMeaning(tok, t, CountAccess(now), ById(id));
  }

  /** Deleting what is not live, deleted already or never there, changes nothing. */
  lemma DeleteOfMissing(tok: Tokenizer, t: Table, id: string, now: string)
    requires Valid(tok, t) && !Live(t.rows, id)
    ensures Execute(tok, t, Update(SetDeleted(now), LiveById(id))) == Some(t)
  {
    var after := Execute(tok, t, Update(SetDeleted(now), LiveById(id)));
    DeleteMeaning(tok, t, id, now);
    hide Execute, Indexed;
    assert after.value.rows == t.rows;
    IndexIsUnique(tok, t.rows, t.index, after.value.index);
  }

  /** Deleting twice is deleting once. */
  lemma DeleteTwice(tok: Tokenizer, t: Table, id: string, now: string, later: string)
    requires Valid(tok, t)
    ensures var once := Execute(tok, t, Update(SetDeleted(now), LiveById(id)));
            once.Some? && Execute(tok, once.value, Update(SetDeleted(later), LiveById(id))) == once
  {
    hide Execute, Valid;
    DeleteMeaning(tok, t, id, now);
    DeleteOfMissing(tok, Execute(tok, t, Update(SetDeleted(now), LiveById(id))).value, id, later);
  }

  // ---------- Searching ----------

  type Match = multiset<Entry> -> bool
  type Filter = Memory -> bool
  type Order = seq<Row> -> seq<Row>

  datatype QueryResult = QueryResult(items: seq<Row>, total: nat, hasMore: bool)

  function Select(rows: seq<Row>, keep: Row -> bool): seq<Row>
    decreases |rows|
  {
    if rows == [] then []
    else Select(rows[..|rows| - 1], keep) + (if keep(rows[|rows| - 1]) then [rows[|rows| - 1]] else [])
  }

  /** `LIMIT` and `OFFSET`. */
  function Page(sorted: seq<Row>, limit: nat, offset: nat): seq<Row> {
    var rest := if offset <= |sorted| then sorted[offset..] else [];
    if limit <= |rest| then rest[..limit] else rest
  }

  /** The rows that are kept, in the given order, one page of them. */
  function Query(rows: seq<Row>, keep: Row -> bool, order: Order, limit: nat, offset: nat): QueryResult {
    var found := Select(rows, keep);
    var items := Page(order(found), limit, offset);
    QueryResult(items, |found|, |found| > offset + |items|)
  }

  /** The index holds something under the row id, and that matches. */
  predicate Hit(index: Index, matches: Match, rowid: nat) {
    rowid in index && matches(index[rowid])
  }

  /** The search as the database evaluates it, by joining the table with the index. */
  function SearchFts(t: Table, matches: Match, filter: Filter, order: Order, limit: nat, offset: nat): QueryResult {
    var keep := (r: Row) => Hit(t.index, matches, r.rowid) && !r.memory.isDeleted && filter(r.memory);
    Query(t.rows, keep, order, limit, offset)
  }

  function SearchFilter(t: Table, filter: Filter, order: Order, limit: nat, offset: nat): QueryResult {
    Query(t.rows, (r: Row) => !r.memory.isDeleted && filter(r.memory), order, limit, offset)
  }

  predicate Matching(tok: Tokenizer, m: Memory, matches: Match) {
    Entries(tok, m) != multiset{} && matches(Entries(tok, m))
  }

  /** The search as a scan of the memories themselves. */
  function Scan(tok: Tokenizer, rows: seq<Row>, matches: Match, filter: Filter, order: Order, limit: nat, offset: nat)
    : QueryResult
  {
    var keep := (r: Row) => Matching(tok, r.memory, matches) && !r.memory.isDeleted && filter(r.memory);
    Query(rows, keep, order, limit, offset)
  }

  lemma {:induction false} SelectAlike(rows: seq<Row>, p: Row -> bool, q: Row -> bool)
    requires forall r | r in rows :: p(r) == q(r)
    ensures Select(rows, p) == Select(rows, q)
    decreases |rows|
  {
    if rows != [] {
      SelectAlike(rows[..|rows| - 1], p, q);
    }
  }

  lemma HitIsMatching(tok: Tokenizer, t: Table, i: nat, matches: Match)
    requires Valid(tok, t) && i < |t.rows|
    ensures Hit(t.index, matches, t.rows[i].rowid) == Matching(tok, t.rows[i].memory, matches)
  {
    hide Entries;
    assert Postings(t.index, t.rows[i].rowid) == Entries(tok, t.rows[i].memory);
  }

  /** Searching through the index finds what scanning the table finds. */
  lemma SearchIsScan(tok: Tokenizer, t: Table, matches: Match, filter: Filter, order: Order, limit: nat, offset: nat)
    requires Valid(tok, t)
    ensures SearchFts(t, matches, filter, order, limit, offset)
         == Scan(tok, t.rows, matches, filter, order, limit, offset)
  {
    hide Entries;
    var p := (r: Row) => Hit(t.index, matches, r.rowid) && !r.memory.isDeleted && filter(r.memory);
    var q := (r: Row) => Matching(tok, r.memory, matches) && !r.memory.isDeleted && filter(r.memory);
    forall r | r in t.rows ensures p(r) == q(r) {
      var i :| 0 <= i < |t.rows| && t.rows[i] == r;
      HitIsMatching(tok, t, i, matches);
    }
    SelectAlike(t.rows, p, q);
  }

  // ---------- The search request ----------

  /** What the database contributes: how it reads a match expression, if it can, how `LIKE` compares, and its orders. */
  datatype Engine = Engine(
    compile: string -> Option<Match>, like: (string, Memory) -> bool,
    rank: Order, byImportance: Order, sort: Option<string> -> Order)

  datatype MemoryQuery = MemoryQuery(
    search: Option<string>, filter: Filter, sortBy: Option<string>, limit: Option<nat>, offset: Option<nat>)
  {
    function Limit(): nat { limit.GetOr(20) }
    function Offset(): nat { offset.GetOr(0) }
    predicate HasText() { search.Some? && Trim(search.value) != "" }
  }

  /** By the index where there is text to look for, by `LIKE` where the index refuses it, by the filters alone
      otherwise. */
  function Search(e: Engine, t: Table, q: MemoryQuery): QueryResult {
    if q.HasText() then
      match e.compile(q.search.value)
      case Some(matches) => SearchFts(t, matches, q.filter, e.rank, q.Limit(), q.Offset())
      case None =>
        SearchFilter(t, (m: Memory) => e.like(q.search.value, m) && q.filter(m), e.byImportance, q.Limit(), q.Offset())
    else SearchFilter(t, q.filter, e.sort(q.sortBy), q.Limit(), q.Offset())
  }

  /** What the request asks for, memory by memory. */
  ghost predicate Wanted(tok: Tokenizer, e: Engine, q: MemoryQuery, m: Memory) {
    && !m.isDeleted && q.filter(m)
    && (q.search.Some? && (exists c :: c in q.search.value && !IsWhitespace(c)) ==>
          match e.compile(q.search.value)
          case Some(matches) => Matching(tok, m, matches)
          case None => e.like(q.search.value, m))
  }

  function OrderOf(e: Engine, q: MemoryQuery): Order {
    if !q.HasText() then e.sort(q.sortBy) else if e.compile(q.search.value).Some? then e.rank else e.byImportance
  }

  lemma SearchOfValid(tok: Tokenizer, t: Table, e: Engine, q: MemoryQuery)
    requires Valid(tok, t)
    ensures var keep := (r: Row) => Wanted(tok, e, q, r.memory);
            Search(e, t, q) == Query(t.rows, keep, OrderOf(e, q), q.Limit(), q.Offset())
  {
    hide Valid, Matching, Hit, Trim, IsWhitespace;
    if q.search.Some? { BlankIsTrimmed(q.search.value); }
    var wanted := (r: Row) => Wanted(tok, e, q, r.memory);
    if q.HasText() {
      match e.compile(q.search.value)
      case Some(matches) =>
        SearchIsScan(tok, t, matches, q.filter, e.rank, q.Limit(), q.Offset());
        var matching := (r: Row) => Matching(tok, r.memory, matches) && !r.memory.isDeleted && q.filter(r.memory);
        SelectAlike(t.rows, matching, wanted);
      case None =>
        var liked := (m: Memory) => e.like(q.search.value, m) && q.filter(m);
        SelectAlike(t.rows, (r: Row) => !r.memory.isDeleted && liked(r.memory), wanted);
    } else {
      SelectAlike(t.rows, (r: Row) => !r.memory.isDeleted && q.filter(r.memory), wanted);
    }
  }

  /** Whatever statements made the database, a search returns the page of exactly the wanted memories. */
  lemma SearchMeaning(tok: Tokenizer, statements: seq<Statement>, e: Engine, q: MemoryQuery)
    ensures var t := Run(tok, EMPTY, statements);
            var keep := (r: Row) => Wanted(tok, e, q, r.memory);
            Search(e, t, q) == Query(t.rows, keep, OrderOf(e, q), q.limit.GetOr(20), q.offset.GetOr(0))
  {
    hide Run, Entries;
    RunKeepsValid(tok, EMPTY, statements);
    SearchOfValid(tok, Run(tok, EMPTY, statements), e, q);
  }

  /** `ORDER BY` arranges rows and loses none. */
  ghost predicate Arranges(order: Order) {
    forall rows :: multiset(order(rows)) == multiset(rows)
  }

  lemma ArrangedLength(order: Order, rows: seq<Row>)
    requires Arranges(order)
    ensures |order(rows)| == |rows|
  {
    assert |multiset(order(rows))| == |multiset(rows)|;
  }

  lemma PageOf(sorted: seq<Row>, limit: nat, offset: nat)
    ensures forall row | row in Page(sorted, limit, offset) :: row in sorted
  {
  }

  lemma {:induction false} SelectedCount(rows: seq<Row>, keep: Row -> bool, row: Row)
    ensures multiset(Select(rows, keep))[row] == if keep(row) then multiset(rows)[row] else 0
    decreases |rows|
  {
    if rows != [] {
      var n := |rows| - 1;
      SelectedCount(rows[..n], keep, row);
      assert rows == rows[..n] + [rows[n]];
    }
  }

  /** Selecting and ordering keep each kept row as often as it is there. */
  lemma KeptRows(rows: seq<Row>, keep: Row -> bool, order: Order)
    requires Arranges(order)
    ensures forall row :: multiset(order(Select(rows, keep)))[row] == if keep(row) then multiset(rows)[row] else 0
    ensures forall row | row in order(Select(rows, keep)) :: row in rows && keep(row)
  {
    hide Select;
    forall row ensures multiset(order(Select(rows, keep)))[row] == if keep(row) then multiset(rows)[row] else 0 {
      SelectedCount(rows, keep, row);
    }
    forall row | row in order(Select(rows, keep)) ensures row in rows && keep(row) {
      assert row in multiset(order(Select(rows, keep)));
    }
  }

  /** A search returns rows of the table, none of them deleted. */
  lemma FoundAreLive(tok: Tokenizer, t: Table, e: Engine, q: MemoryQuery)
    requires Valid(tok, t) && Arranges(OrderOf(e, q))
    ensures forall row | row in Search(e, t, q).items :: row in t.rows && !row.memory.isDeleted
  {
    hide Valid, Select, Page, Search, Arranges, OrderOf;
    var keep := (r: Row) => Wanted(tok, e, q, r.memory);
    SearchOfValid(tok, t, e, q);
    KeptRows(t.rows, keep, OrderOf(e, q));
    PageOf(OrderOf(e, q)(Select(t.rows, keep)), q.Limit(), q.Offset());
  }

  /** What is deleted is found by no search. */
  lemma DeletedIsNotFound(tok: Tokenizer, t: Table, id: string, now: string, e: Engine, q: MemoryQuery)
    requires Valid(tok, t) && Arranges(OrderOf(e, q))
    ensures var after := Execute(tok, t, Update(SetDeleted(now), LiveById(id)));
            after.Some? && forall row | row in Search(e, after.value, q).items :: row.memory.id != id
  {
    hide Valid, Execute, Search, Arranges, OrderOf;
    DeleteMeaning(tok, t, id, now);
    FoundAreLive(tok, Execute(tok, t, Update(SetDeleted(now), LiveById(id))).value, e, q);
  }

  lemma PageParts(rows: seq<Row>, keep: Row -> bool, order: Order, limit: nat, offset: nat)
    requires Arranges(order) && offset <= |order(Select(rows, keep))|
    ensures var r, sorted := Query(rows, keep, order, limit, offset), order(Select(rows, keep));
            && r.total == |sorted|
            && if r.hasMore then offset + limit < |sorted| && r.items == sorted[offset..][..limit]
            else r.items == sorted[offset..]
  {
    hide Select, Arranges;
    ArrangedLength(order, Select(rows, keep));
  }

  /** More is announced exactly when kept rows remain past the page. */
  lemma MoreExactly(rows: seq<Row>, keep: Row -> bool, order: Order, limit: nat, offset: nat)
    requires Arranges(order)
    ensures var r, sorted := Query(rows, keep, order, limit, offset), order(Select(rows, keep));
            && r.total == |sorted|
            && (r.hasMore <==> offset + limit < |sorted|)
            && (offset <= |sorted| ==> sorted[..offset] + r.items <= sorted)
            && (offset <= |sorted| && !r.hasMore ==> sorted[..offset] + r.items == sorted)
  {
    ArrangedLength(order, Select(rows, keep));
    var sorted := order(Select(rows, keep));
    if offset <= |sorted| {
      PageParts(rows, keep, order, limit, offset);
      hide *;
      TakeDrop(sorted, offset);
      DropDrop(sorted, offset, if offset + limit <= |sorted| then limit else 0);
    } else {
      hide Select, Arranges;
    }
  }

  /** Turning pages while more is announced. */
  function AllPages(rows: seq<Row>, keep: Row -> bool, order: Order, limit: nat, offset: nat): seq<Row>
    requires limit > 0
    decreases if offset <= |Select(rows, keep)| then |Select(rows, keep)| - offset else 0
  {
    var r := Query(rows, keep, order, limit, offset);
    if r.hasMore then r.items + AllPages(rows, keep, order, limit, offset + limit) else r.items
  }

  lemma PagesStep(rows: seq<Row>, keep: Row -> bool, order: Order, limit: nat, offset: nat)
    requires limit > 0
    ensures var r := Query(rows, keep, order, limit, offset);
            AllPages(rows, keep, order, limit, offset)
                == if r.hasMore then r.items + AllPages(rows, keep, order, limit, offset + limit) else r.items
  {
    hide Query, Select;
  }

  /** The pages put together are the kept rows in their order, each once. */
  lemma {:induction false} PagesAreComplete(rows: seq<Row>, keep: Row -> bool, order: Order, limit: nat, offset: nat)
    requires limit > 0 && Arranges(order) && offset <= |Select(rows, keep)|
    ensures offset <= |order(Select(rows, keep))|
    ensures AllPages(rows, keep, order, limit, offset) == order(Select(rows, keep))[offset..]
    decreases |Select(rows, keep)| - offset
  {
    hide *;
    ArrangedLength(order, Select(rows, keep));
    PageParts(rows, keep, order, limit, offset);
    PagesStep(rows, keep, order, limit, offset);
    if Query(rows, keep, order, limit, offset).hasMore {
      var sorted := order(Select(rows, keep));
      PagesAreComplete(rows, keep, order, limit, offset + limit);
      DropDrop(sorted, offset, limit);
      TakeDrop(sorted[offset..], limit);
    }
  }

  // ---------- The repository ----------

  lemma AssignStep(tok: Tokenizer, t: Table, id: string, a: Assignment, rest: seq<Assignment>)
    ensures Assigned(tok, t, id, [a] + rest)
         == match Execute(tok, t, MemoryTable.Update(a, ById(id)))
            case None => Outcome(Err(ConstraintFailed), t)
            case Some(after) => Assigned(tok, after, id, rest)
  {
    hide Execute;
    assert ([a] + rest)[1..] == rest;
  }

  /** A field of the request that may be missing. */
  lemma AssignOptional<T>(
    tok: Tokenizer, t: Table, id: string, field: Option<T>, assign: T -> Assignment, rest: seq<Assignment>)
    ensures Assigned(tok, t, id, OptionalAssignment(field, assign) + rest)
         == if field.None? then Assigned(tok, t, id, rest)
            else
              match Execute(tok, t, MemoryTable.Update(assign(field.value), ById(id)))
              case None => Outcome(Err(ConstraintFailed), t)
              case Some(after) => Assigned(tok, after, id, rest)
  {
    hide Execute, Assigned;
    if field.None? {
      assert [] + rest == rest;
    } else {
      AssignStep(tok, t, id, assign(field.value), rest);
    }
  }

  lemma AssignNothing(tok: Tokenizer, t: Table, id: string)
    ensures Assigned(tok, t, id, []) == Outcome(Ok(true), t)
  {
  }

  /** A page is filled as far as the rows go. */
  lemma PageIs(sorted: seq<Row>, limit: nat, offset: nat, items: seq<Row>)
    requires |items| == limit || (|items| < limit && offset + |items| >= |sorted|)
    requires forall j | 0 <= j < |items| :: offset + j < |sorted| && items[j] == sorted[offset + j]
    ensures items == Page(sorted, limit, offset)
  {
    if items != [] {
      var last := items[|items| - 1];
      assert last == sorted[offset + (|items| - 1)];
    }
  }

  class Repository {
    const tok: Tokenizer
    const render: Render
    var rows: seq<Row>
    var index: Index

    constructor (tok: Tokenizer, render: Render)
      ensures this.tok == tok && this.render == render && Contents() == EMPTY
    {
      this.tok, this.render := tok, render;
      rows, index := [], map[];
    }

    function Contents(): Table
      reads this
    {
      Table(rows, index)
    }

    method InsertRow(m: Memory) returns (ok: bool)
      modifies this
      ensures ok == Execute(tok, old(Contents()), MemoryTable.Insert(m)).Some?
      ensures Contents() == Execute(tok, old(Contents()), MemoryTable.Insert(m)).GetOr(old(Contents()))
    {
      ok := !Taken(rows, m.id) && ImportanceAllowed(m);
      if ok {
        var row := Row(NextRowid(rows), m);
        rows := rows + [row];
        index := AfterInsert(tok, index, row);
      }
    }

    /** An update statement, row by row with its trigger; returns how many rows it affected. */
    method UpdateRows(a: Assignment, w: Where) returns (affected: Option<nat>)
      modifies this
      ensures affected.Some? == Execute(tok, old(Contents()), MemoryTable.Update(a, w)).Some?
      ensures Contents() == Execute(tok, old(Contents()), MemoryTable.Update(a, w)).GetOr(old(Contents()))
      ensures affected.Some? ==> (affected.value > 0
           <==> exists i | 0 <= i < |old(rows)| :: w.Holds(old(rows)[i].memory))
    {
      hide AfterUpdate, Assignment.Apply, Where.Holds;
      if !UpdateAllowed(rows, a, w) {
        return None;
      }
      var count, n := 0, 0;
      ghost var before := Contents();
      while n < |rows|
        invariant n <= |rows| == |before.rows| && Contents() == Updated(tok, before, a, w, n)
        invariant forall i | n <= i < |rows| :: rows[i] == before.rows[i]
        invariant count > 0 <==> exists i | 0 <= i < n :: w.Holds(before.rows[i].memory)
      {
        var row := rows[n];
        if w.Holds(row.memory) {
          var changed := row.(memory := a.Apply(row.memory));
          rows := rows[n := changed];
          index := AfterUpdate(tok, index, row, changed);
          count := count + 1;
        }
        n := n + 1;
      }
      return Some(count);
    }

    method Store(m: Memory, tags: seq<string>) returns (result: Result<(), DbError>)
      modifies this
      ensures var s := MemoryTable.Insert(m.(tags := render(tags)));
              result == (if Execute(tok, old(Contents()), s).Some? then Ok(()) else Err(ConstraintFailed))
              && Contents() == Execute(tok, old(Contents()), s).GetOr(old(Contents()))
    {
      var ok := InsertRow(m.(tags := render(tags)));
      return if ok then Ok(()) else Err(ConstraintFailed);
    }

    method Update(id: string, req: UpdateRequest, now: string) returns (result: Result<bool, DbError>)
      modifies this
      ensures Outcome(result, Contents()) == UpdateMemory(tok, render, old(Contents()), id, req, now)
    {
      hide Execute, Live, Assigned, OptionalAssignment;
      if !Live(rows, id) {
        return Ok(false);
      }
      ghost var g := OptionalAssignment(req.tags, (tags: seq<string>) => SetTags(render(tags), now));
      ghost var i := OptionalAssignment(req.importance, (n: nat) => SetImportance(n, now)) + g;
      ghost var k := OptionalAssignment(req.category, (text: string) => SetCategory(text, now)) + i;
      ghost var c := OptionalAssignment(req.content, (text: string) => SetContent(text, now)) + k;
      AssignOptional(tok, Contents(), id, req.title, (text: string) => SetTitle(text, now), c);
      if req.title.Some? {
        var r := UpdateRows(SetTitle(req.title.value, now), ById(id));
        if r.None? { return Err(ConstraintFailed); }
      }
      AssignOptional(tok, Contents(), id, req.content, (text: string) => SetContent(text, now), k);
      if req.content.Some? {
        var r := UpdateRows(SetContent(req.content.value, now), ById(id));
        if r.None? { return Err(ConstraintFailed); }
      }
      AssignOptional(tok, Contents(), id, req.category, (text: string) => SetCategory(text, now), i);
      if req.category.Some? {
        var r := UpdateRows(SetCategory(req.category.value, now), ById(id));
        if r.None? { return Err(ConstraintFailed); }
      }
      AssignOptional(tok, Contents(), id, req.importance, (n: nat) => SetImportance(n, now), g);
      if req.importance.Some? {
        var r := UpdateRows(SetImportance(req.importance.value, now), ById(id));
        if r.None? { return Err(ConstraintFailed); }
      }
      assert g + [] == g;
      AssignOptional(tok, Contents(), id, req.tags, (tags: seq<string>) => SetTags(render(tags), now), []);
      if req.tags.Some? {
        var r := UpdateRows(SetTags(render(req.tags.value), now), ById(id));
        if r.None? { return Err(ConstraintFailed); }
      }
      AssignNothing(tok, Contents(), id);
      return Ok(true);
    }

    /** Soft deletion: a live memory is marked, its row and its index entries stay. */
    method Delete(id: string, now: string) returns (result: Result<bool, DbError>)
      modifies this
      ensures var after := Execute(tok, old(Contents()), MemoryTable.Update(SetDeleted(now), LiveById(id)));
              result == (if after.Some? then Ok(Live(old(rows), id)) else Err(ConstraintFailed))
              && Contents() == after.GetOr(old(Contents()))
      ensures Valid(tok, old(Contents())) ==>
                && result == Ok(Live(old(rows), id)) && Valid(tok, Contents())
                && OnlyDeleted(old(rows), rows, id, now) && !Live(rows, id)
    {
      hide Execute, Valid, OnlyDeleted;
      if Valid(tok, Contents()) { DeleteMeaning(tok, Contents(), id, now); }
      var affected := UpdateRows(SetDeleted(now), LiveById(id));
      return if affected.Some? then Ok(affected.value > 0) else Err(ConstraintFailed);
    }

    /** Counts an access, to a deleted memory as well. */
    method Touch(id: string, now: string) returns (result: Result<(), DbError>)
      modifies this
      ensures var after := Execute(tok, old(Contents()), MemoryTable.Update(CountAccess(now), ById(id)));
              result == (if after.Some? then Ok(()) else Err(ConstraintFailed))
              && Contents() == after.GetOr(old(Contents()))
      ensures Valid(tok, old(Contents())) ==>
                result == Ok(()) && Valid(tok, Contents()) && OnlyTouched(old(rows), rows, id, now)
    {
      hide Execute, Valid, OnlyTouched;
      if Valid(tok, Contents()) { TouchMeaning(tok, Contents(), id, now); }
      var affected := UpdateRows(CountAccess(now), ById(id));
      return if affected.Some? then Ok(()) else Err(ConstraintFailed);
    }

    /** The page holds the kept rows from `offset` on, in order, no more than `limit` of them; the total counts all kept
        rows; and more is announced exactly if some of them come after the page. */
    method FetchPage(keep: Row -> bool, order: Order, limit: nat, offset: nat) returns (r: QueryResult)
      ensures r == Query(rows, keep, order, limit, offset)
      ensures |r.items| <= limit && forall i | 0 <= i < |r.items| ::
                offset + i < |order(Select(rows, keep))| && r.items[i] == order(Select(rows, keep))[offset + i]
      ensures Arranges(order) ==>
                && (forall i | 0 <= i < |r.items| :: r.items[i] in rows && keep(r.items[i]))
                && (forall row ::
                      multiset(order(Select(rows, keep)))[row] == if keep(row) then multiset(rows)[row] else 0)
                && (r.hasMore <==> offset + limit < |order(Select(rows, keep))|)
    {
      var total, sorted := |Select(rows, keep)|, order(Select(rows, keep));
      var items, i := [], offset;
      while |items| < limit && i < |sorted|
        invariant i == offset + |items| && |items| <= limit && (offset <= |sorted| ==> i <= |sorted|)
        invariant forall j | 0 <= j < |items| :: offset + j < |sorted| && items[j] == sorted[offset + j]
        decreases |sorted| - i
      {
        items := items + [sorted[i]];
        i := i + 1;
      }
      r := QueryResult(items, total, total > offset + |items|);
      PageIs(sorted, limit, offset, items);
      if Arranges(order) {
        KeptRows(rows, keep, order);
        MoreExactly(rows, keep, order, limit, offset);
      }
    }

    method SearchMemories(e: Engine, q: MemoryQuery) returns (r: QueryResult)
      ensures r == Search(e, Contents(), q)
    {
      var ix, filter := index, q.filter;
      if q.HasText() {
        var text := q.search.value;
        match e.compile(text)
        case Some(matches) =>
          var keep := (r: Row) => Hit(ix, matches, r.rowid) && !r.memory.isDeleted && filter(r.memory);
          r := FetchPage(keep, e.rank, q.Limit(), q.Offset());
        case None =>
          var liked := (m: Memory) => e.like(q.search.value, m) && q.filter(m);
          r := FetchPage((r: Row) => !r.memory.isDeleted && liked(r.memory), e.byImportance, q.Limit(), q.Offset());
      } else {
        r := FetchPage((r: Row) => !r.memory.isDeleted && filter(r.memory), e.sort(q.sortBy), q.Limit(), q.Offset());
      }
    }
  }
}
