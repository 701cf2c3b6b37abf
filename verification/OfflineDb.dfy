/** Offline writes to the task bindings: closing one binding, and marking bindings without a live session as failed. */
module OfflineDb {
  import opened Common
  import opened Text

  /** The columns the offline path reads or writes; `others` stands for the rest of the row. */
  datatype Binding = Binding(
    id: string, role: string, parentId: Option<string>, planPath: Option<string>, normalizedPlanPath: Option<string>,
    sessionId: Option<string>, status: string, progress: int, completionSummary: Option<string>, exitCode: Option<int>,
    sortOrder: int, createdAt: string, updatedAt: string, others: string)

  datatype DbError = Conflict | Invalid

  /** The primary key. */
  ghost predicate UniqueIds(rows: seq<Binding>) {
    forall i, j | 0 <= i < j < |rows| :: rows[i].id != rows[j].id
  }

  // ---------- Queries ----------

  /** Binary order of text values. */
  predicate TextLess(a: string, b: string) {
    CompareText(a, b) == Less
  }

  predicate Before(a: Binding, b: Binding) {
    a.sortOrder < b.sortOrder || (a.sortOrder == b.sortOrder && TextLess(a.createdAt, b.createdAt))
  }

  function Insert(b: Binding, sorted: seq<Binding>): (r: seq<Binding>)
    ensures forall x :: x in r <==> x == b || x in sorted
  {
    if sorted == [] || !Before(sorted[0], b) then [b] + sorted
    else
      var rest := Insert(b, sorted[1..]);
      [sorted[0]] + rest
  }

  predicate InScope(b: Binding, leader: string) {
    b.id == leader || b.parentId == Some(leader)
  }

  /** `WHERE id = ?1 OR parent_id = ?1 ORDER BY sort_order ASC, created_at ASC`. */
  function Candidates(rows: seq<Binding>, leader: string): (r: seq<Binding>)
    ensures forall x :: x in r <==> x in rows && InScope(x, leader)
  {
    if rows == [] then []
    else if InScope(rows[0], leader) then Insert(rows[0], Candidates(rows[1..], leader))
    else Candidates(rows[1..], leader)
  }

  function Get(rows: seq<Binding>, id: string): (r: Option<Binding>)
    ensures r.Some? ==> r.value in rows && r.value.id == id
    ensures r.None? ==> forall b | b in rows :: b.id != id
  {
    if rows == [] then None else if rows[0].id == id then Some(rows[0]) else Get(rows[1..], id)
  }

  predicate LeadsPlan(b: Binding, path: string) {
    b.role == "leader" && (b.planPath == Some(path) || b.normalizedPlanPath == Some(path))
  }

  /** `ORDER BY updated_at DESC LIMIT 1` over the leaders of a plan. */
  function LatestLeader(rows: seq<Binding>, path: string): (r: Option<Binding>)
    ensures r.Some? ==> r.value in rows && LeadsPlan(r.value, path)
    ensures r.None? ==> forall b | b in rows :: !LeadsPlan(b, path)
  {
    if rows == [] then None
    else
      var rest := LatestLeader(rows[1..], path);
      if LeadsPlan(rows[0], path) && (rest.None? || !TextLess(rows[0].updatedAt, rest.value.updatedAt))
      then Some(rows[0])
      else rest
  }

  function ResolveLeaderId(rows: seq<Binding>, leaderId: Option<string>, planPath: Option<string>): (r: Option<string>)
    requires leaderId.Some? || planPath.Some?
    ensures r.Some? ==> exists b :: b in rows && b.id == r.value && b.role == "leader"
  {
    if leaderId.Some? then
      var found := Get(rows, leaderId.value);
      if found.Some? && found.value.role == "leader" then leaderId else None
    else
      var latest := LatestLeader(rows, planPath.value);
      if latest.Some? then Some(latest.value.id) else None
  }

  lemma GetUnique(rows: seq<Binding>, i: nat)
    requires UniqueIds(rows) && i < |rows|
    ensures Get(rows, rows[i].id) == Some(rows[i])
  {
    var found := Get(rows, rows[i].id);
    if found.Some? {
      var j :| 0 <= j < |rows| && rows[j] == found.value;
    }
  }

  function RowOf(rows: seq<Binding>, b: Binding): (i: nat)
    requires b in rows
    ensures i < |rows| && rows[i] == b
  {
    if rows[0] == b then 0 else 1 + RowOf(rows[1..], b)
  }

  /** By id: exactly that id, if a row has it with the role of a leader. */
  lemma ResolvedById(rows: seq<Binding>, id: string, planPath: Option<string>)
    requires UniqueIds(rows)
    ensures var r := ResolveLeaderId(rows, Some(id), planPath);
            r == if exists b :: b in rows && b.id == id && b.role == "leader" then Some(id) else None
  {
    if b :| b in rows && b.id == id && b.role == "leader" {
      GetUnique(rows, RowOf(rows, b));
    }
  }

  lemma TextOrder(a: string, b: string, c: string)
    ensures TextLess(a, b) ==> !TextLess(b, a)
    ensures !TextLess(a, b) && !TextLess(b, c) ==> !TextLess(a, c)
  {
    hide CompareText;
    TextReverses(a, b);
    TextReverses(b, c);
    TextReverses(a, c);
    if !TextLess(a, b) && !TextLess(b, c) { TextTransitive(c, b, a); }
  }

  lemma LaterOfTwo(a: string, b: string, c: string)
    ensures !TextLess(a, a)
    ensures !TextLess(a, b) && !TextLess(b, c) ==> !TextLess(a, c)
    ensures TextLess(a, b) ==> !TextLess(b, a)
  {
    TextOrder(a, b, c);
    TextOrder(a, a, a);
    TextReverses(a, a);
  }

  /** No leader of the plan is later than the latest. */
  lemma {:induction false} LatestIsLatest(rows: seq<Binding>, path: string)
    ensures var r := LatestLeader(rows, path);
            r.Some? ==>
              forall i | 0 <= i < |rows| && LeadsPlan(rows[i], path) :: !TextLess(r.value.updatedAt, rows[i].updatedAt)
  {
    hide TextLess, LeadsPlan;
    if rows != [] {
      LatestIsLatest(rows[1..], path);
      assert forall i | 0 < i < |rows| :: rows[i] == rows[1..][i - 1];
      var r, rest := LatestLeader(rows, path), LatestLeader(rows[1..], path);
      if r.Some? {
        forall i | 0 <= i < |rows| && LeadsPlan(rows[i], path) ensures !TextLess(r.value.updatedAt, rows[i].updatedAt) {
          var later := if rest.Some? then rest.value.updatedAt else rows[0].updatedAt;
          LaterOfTwo(rows[0].updatedAt, later, rows[i].updatedAt);
        }
      }
    }
  }

  /** By plan: a leader of the plan than which no other is later, if there is one. */
  lemma ResolvedByPlan(rows: seq<Binding>, path: string)
    ensures var r := ResolveLeaderId(rows, None, Some(path));
            match r
            case None =>
              forall b | b in rows && b.role == "leader" ::
                b.planPath != Some(path) && b.normalizedPlanPath != Some(path)
            case Some(leader) =>
              exists b :: b in rows && b.id == leader && b.role == "leader"
                && (b.planPath == Some(path) || b.normalizedPlanPath == Some(path))
                && forall c | c in rows && c.role == "leader"
                     && (c.planPath == Some(path) || c.normalizedPlanPath == Some(path)) ::
                     CompareText(b.updatedAt, c.updatedAt) != Less
  {
    LatestIsLatest(rows, path);
    var latest := LatestLeader(rows, path);
    if latest.Some? {
      forall c | c in rows && LeadsPlan(c, path) ensures CompareText(latest.value.updatedAt, c.updatedAt) != Less {
        var i := RowOf(rows, c);
      }
    }
  }

  // ---------- Updates ----------

  const RECONCILE_SUMMARY := "offline reconcile: daemon session not active"

  function MarkFailed(b: Binding, stamp: string): Binding {
    b.(status := "failed",
       exitCode := Some(b.exitCode.GetOr(-1)),
       completionSummary := if b.completionSummary.GetOr("") == "" then Some(RECONCILE_SUMMARY)
           else b.completionSummary,
       updatedAt := stamp)
  }

  /** Compare-and-swap on `updated_at` and `status`. */
  predicate Matches(b: Binding, id: string, updatedAt: string, status: string) {
    b.id == id && b.updatedAt == updatedAt && b.status == status
  }

  function Affected(rows: seq<Binding>, id: string, updatedAt: string, status: string): nat {
    if rows == [] then 0
    else (if Matches(rows[0], id, updatedAt, status) then 1 else 0) + Affected(rows[1..], id, updatedAt, status)
  }

  function Replaced(
    rows: seq<Binding>, id: string, updatedAt: string, status: string, f: Binding -> Binding): (r: seq<Binding>)
    ensures |r| == |rows|
    ensures forall i | 0 <= i < |rows| ::
              r[i] == if Matches(rows[i], id, updatedAt, status) then f(rows[i]) else rows[i]
  {
    seq(|rows|, i requires 0 <= i < |rows| => if Matches(rows[i], id, updatedAt, status) then f(rows[i]) else rows[i])
  }

  lemma {:induction false} NoRowIsAffected(rows: seq<Binding>, id: string, updatedAt: string, status: string)
    requires forall i | 0 <= i < |rows| :: rows[i].id != id
    ensures Affected(rows, id, updatedAt, status) == 0
  {
    if rows != [] {
      NoRowIsAffected(rows[1..], id, updatedAt, status);
    }
  }

  lemma {:induction false} NoMatchNoEffect(rows: seq<Binding>, id: string, updatedAt: string, status: string)
    requires forall i | 0 <= i < |rows| :: !Matches(rows[i], id, updatedAt, status)
    ensures Affected(rows, id, updatedAt, status) == 0
  {
    if rows != [] {
      NoMatchNoEffect(rows[1..], id, updatedAt, status);
    }
  }

  /** A row that has another time stamp or status than when it was read is not written, and no other row is either. */
  lemma ChangedRowIsRefused(rows: seq<Binding>, i: nat, read: Binding, f: Binding -> Binding)
    requires UniqueIds(rows) && i < |rows| && rows[i].id == read.id
    requires rows[i].updatedAt != read.updatedAt || rows[i].status != read.status
    ensures Affected(rows, read.id, read.updatedAt, read.status) == 0
    ensures Replaced(rows, read.id, read.updatedAt, read.status, f) == rows
  {
    forall k | 0 <= k < |rows| ensures !Matches(rows[k], read.id, read.updatedAt, read.status) {
      if rows[k].id == read.id { assert k == i; }
    }
    NoMatchNoEffect(rows, read.id, read.updatedAt, read.status);
  }

  lemma {:induction false} UniqueRowIsAffected(rows: seq<Binding>, i: nat)
    requires UniqueIds(rows) && i < |rows|
    ensures Affected(rows, rows[i].id, rows[i].updatedAt, rows[i].status) == 1
  {
    var b := rows[i];
    if i == 0 {
      NoRowIsAffected(rows[1..], b.id, b.updatedAt, b.status);
    } else {
      UniqueRowIsAffected(rows[1..], i - 1);
    }
  }

  // ---------- What reconciling is meant to do ----------

  predicate SessionLive(b: Binding, live: set<string>) {
    b.sessionId.Some? && b.sessionId.value in live
  }

  predicate ActiveStatus(status: string) {
    status == "running" || status == "waiting"
  }

  /** Running or waiting without a live session. */
  predicate Lost(b: Binding, live: set<string>) {
    ActiveStatus(b.status) && !SessionLive(b, live)
  }

  function LostIds(candidates: seq<Binding>, live: set<string>): seq<string> {
    if candidates == [] then []
    else
      var n := |candidates| - 1;
      LostIds(candidates[..n], live) + (if Lost(candidates[n], live) then [candidates[n].id] else [])
  }

  /** The ids to be marked, in the order in which they are. */
  function Targets(rows: seq<Binding>, leader: string, live: set<string>): seq<string> {
    LostIds(Candidates(rows, leader), live)
  }

  function Position(ids: seq<string>, id: string): (k: nat)
    requires id in ids
    ensures k < |ids| && ids[k] == id
  {
    if ids[0] == id then 0 else 1 + Position(ids[1..], id)
  }

  function MarkRow(b: Binding, ids: seq<string>, clock: nat -> string, start: nat): Binding {
    if b.id in ids then MarkFailed(b, clock(start + Position(ids, b.id))) else b
  }

  /** The table with the rows of `ids` marked, each under its own time stamp. */
  function Marked(rows: seq<Binding>, ids: seq<string>, clock: nat -> string, start: nat): (r: seq<Binding>)
    ensures |r| == |rows|
    ensures forall i | 0 <= i < |rows| :: r[i] == MarkRow(rows[i], ids, clock, start)
  {
    seq(|rows|, i requires 0 <= i < |rows| => MarkRow(rows[i], ids, clock, start))
  }

  // ---------- The loop's lemmas ----------

  lemma MarkedNone(rows: seq<Binding>, clock: nat -> string, start: nat)
    ensures Marked(rows, [], clock, start) == rows
  {
  }

  lemma LostIdsNone(live: set<string>)
    ensures LostIds([], live) == []
  {
  }

  lemma LostIdsStep(candidates: seq<Binding>, k: nat, live: set<string>)
    requires k < |candidates|
    ensures LostIds(candidates[..k + 1], live)
         == LostIds(candidates[..k], live) + (if Lost(candidates[k], live) then [candidates[k].id] else [])
  {
    hide Lost;
    assert candidates[..k + 1][..k] == candidates[..k];
  }

  lemma {:induction false} LostIdsFrom(candidates: seq<Binding>, live: set<string>)
    ensures forall id :: id in LostIds(candidates, live) <==> exists b :: b in candidates && b.id == id && Lost(b, live)
  {
    if candidates != [] {
      var n := |candidates| - 1;
      LostIdsFrom(candidates[..n], live);
      assert candidates == candidates[..n] + [candidates[n]];
    }
  }

  lemma NotMarkedYet(candidates: seq<Binding>, k: nat, live: set<string>)
    requires UniqueIds(candidates) && k < |candidates|
    ensures candidates[k].id !in LostIds(candidates[..k], live)
  {
    LostIdsFrom(candidates[..k], live);
    assert forall b | b in candidates[..k] :: b.id != candidates[k].id;
  }

  lemma {:induction false} PositionExtends(ids: seq<string>, id: string, other: string)
    requires other in ids || other == id
    ensures other in ids ==> Position(ids + [id], other) == Position(ids, other)
    ensures other !in ids ==> Position(ids + [id], other) == |ids|
  {
    if ids == [] {
    } else if ids[0] != other {
      assert (ids + [id])[1..] == ids[1..] + [id];
      PositionExtends(ids[1..], id, other);
    }
  }

  lemma MarkKeepsId(b: Binding, ids: seq<string>, clock: nat -> string, start: nat)
    ensures MarkRow(b, ids, clock, start).id == b.id && MarkRow(b, ids, clock, start).role == b.role
  {
    hide Position, RECONCILE_SUMMARY;
  }

  lemma MarkedOneMore(
    rows: seq<Binding>, ids: seq<string>, clock: nat -> string, start: nat, i: nat, fail: Binding -> Binding)
    requires UniqueIds(rows) && i < |rows| && rows[i].id !in ids
    requires forall b :: fail(b) == MarkFailed(b, clock(start + |ids|))
    ensures var b := rows[i];
            var more := Marked(rows, ids + [b.id], clock, start);
            UniqueIds(more) && more == Replaced(Marked(rows, ids, clock, start), b.id, b.updatedAt, b.status, fail)
  {
    hide Replaced, Marked, MarkFailed;
    var b := rows[i];
    var done := Marked(rows, ids, clock, start);
    var more := Marked(rows, ids + [b.id], clock, start);
    forall j | 0 <= j < |rows|
      ensures more[j] == if Matches(done[j], b.id, b.updatedAt, b.status) then fail(done[j]) else done[j]
      ensures more[j].id == rows[j].id
    {
      MarkKeepsId(rows[j], ids, clock, start);
      MarkKeepsId(rows[j], ids + [b.id], clock, start);
      if rows[j].id in ids || j == i {
        PositionExtends(ids, b.id, rows[j].id);
      }
    }
  }

  /** One iteration: the row is still as it was read, so the compare-and-swap hits it alone. */
  lemma StepMarks(
    rows: seq<Binding>, c: Binding, ids: seq<string>, clock: nat -> string, start: nat, fail: Binding -> Binding)
    requires UniqueIds(rows) && c in rows && c.id !in ids
    requires forall b :: fail(b) == MarkFailed(b, clock(start + |ids|))
    ensures var before, after := Marked(rows, ids, clock, start), Marked(rows, ids + [c.id], clock, start);
            && Affected(before, c.id, c.updatedAt, c.status) == 1
            && Replaced(before, c.id, c.updatedAt, c.status, fail) == after
            && UniqueIds(after) && Get(after, c.id).Some? && Get(after, c.id).value.status == "failed"
  {
    hide Marked, Affected, Replaced, Get, RowOf;
    var before := Marked(rows, ids, clock, start);
    var i := RowOf(rows, c);
    assert before[i] == c;
    forall j | 0 <= j < |rows| ensures before[j].id == rows[j].id {
      MarkKeepsId(rows[j], ids, clock, start);
    }
    UniqueRowIsAffected(before, i);
    MarkedOneMore(rows, ids, clock, start, i, fail);
    GetUnique(Marked(rows, ids + [c.id], clock, start), i);
  }

  /** Closing: the compare-and-swap hits the row that was read, alone. */
  lemma StepCloses(rows: seq<Binding>, b: Binding, close: Binding -> Binding)
    requires UniqueIds(rows) && b in rows && close(b).id == b.id
    ensures var after := Replaced(rows, b.id, b.updatedAt, b.status, close);
            && Affected(rows, b.id, b.updatedAt, b.status) == 1
            && UniqueIds(after) && Get(after, b.id) == Some(close(b))
            && forall j | 0 <= j < |rows| :: after[j] == if rows[j].id == b.id then close(b) else rows[j]
  {
    hide Affected, Get, RowOf, Replaced;
    var i, after := RowOf(rows, b), Replaced(rows, b.id, b.updatedAt, b.status, close);
    UniqueRowIsAffected(rows, i);
    forall j | 0 <= j < |rows|
      ensures after[j].id == rows[j].id && after[j] == if rows[j].id == b.id then close(b) else rows[j]
    {
      assert rows[j].id == b.id ==> j == i;
    }
    GetUnique(after, i);
  }

  lemma {:induction false} InsertDistinct(b: Binding, sorted: seq<Binding>)
    requires UniqueIds(sorted) && forall x | x in sorted :: x.id != b.id
    ensures UniqueIds(Insert(b, sorted))
  {
    if sorted != [] && Before(sorted[0], b) {
      InsertDistinct(b, sorted[1..]);
      assert forall x | x in Insert(b, sorted[1..]) :: x.id != sorted[0].id;
    }
  }

  lemma {:induction false} CandidatesDistinct(rows: seq<Binding>, leader: string)
    requires UniqueIds(rows)
    ensures UniqueIds(Candidates(rows, leader))
  {
    if rows != [] {
      CandidatesDistinct(rows[1..], leader);
      if InScope(rows[0], leader) {
        InsertDistinct(rows[0], Candidates(rows[1..], leader));
      }
    }
  }

  // ---------- The database ----------

  /** What the selectors resolve to, in terms of the rows. */
  lemma Resolution(rows: seq<Binding>, leaderId: Option<string>, planPath: Option<string>)
    requires UniqueIds(rows) && leaderId.Some? != planPath.Some?
    ensures var r := ResolveLeaderId(rows, leaderId, planPath);
            && (leaderId.Some? ==>
                  var known := exists b :: b in rows && b.id == leaderId.value && b.role == "leader";
                  r.Some? == known && (known ==> r.value == leaderId.value))
            && (planPath.Some? ==> r.Some? == exists b :: b in rows && LeadsPlan(b, planPath.value))
            && (planPath.Some? && r.Some? ==>
                  exists b :: b in rows && b.id == r.value && LeadsPlan(b, planPath.value)
                    && forall c | c in rows && LeadsPlan(c, planPath.value) :: !TextLess(b.updatedAt, c.updatedAt))
  {
    hide ResolveLeaderId, UniqueIds, CompareText;
    if leaderId.Some? {
      ResolvedById(rows, leaderId.value, planPath);
    } else {
      ResolvedByPlan(rows, planPath.value);
    }
  }

  /** In scope, and running or waiting without a live session. */
  predicate Touched(b: Binding, leader: string, live: set<string>) {
    InScope(b, leader) && Lost(b, live)
  }

  /** The marked ids are exactly those of the touched rows. */
  lemma TargetsAreTouched(rows: seq<Binding>, leader: string, live: set<string>)
    ensures forall id :: id in Targets(rows, leader, live) <==>
              exists b :: b in rows && b.id == id && Touched(b, leader, live)
  {
    LostIdsFrom(Candidates(rows, leader), live);
  }

  /** Row by row: a binding of the leader that is running or waiting without a live session becomes failed, keeping an
      exit code and a non-empty summary it had, under the stamp of its turn; and every other row stays as it was. */
  lemma RowsAfter(rows: seq<Binding>, leader: string, live: set<string>, clock: nat -> string, start: nat, i: nat)
    requires UniqueIds(rows) && i < |rows|
    ensures var b, after := rows[i], Marked(rows, Targets(rows, leader, live), clock, start)[i];
            var lost := (b.id == leader || b.parentId == Some(leader))
              && (b.status == "running" || b.status == "waiting")
              && (b.sessionId.Some? ==> b.sessionId.value !in live);
            && lost == Touched(b, leader, live) && (!lost ==> after == b)
            && (lost ==>
                  && after.status == "failed"
                  && (var ids := Targets(rows, leader, live);
                      exists k: nat :: k < |ids| && ids[k] == b.id && after.updatedAt == clock(start + k))
                  && after.exitCode == (if b.exitCode.Some? then b.exitCode else Some(-1))
                  && (b.completionSummary.Some? && b.completionSummary.value != "" ==>
                        after.completionSummary == b.completionSummary)
                  && (b.completionSummary.GetOr("") == "" ==>
                        after.completionSummary == Some("offline reconcile: daemon session not active"))
                  && after == b.(status := after.status, exitCode := after.exitCode,
                                 completionSummary := after.completionSummary, updatedAt := after.updatedAt))
  {
    TargetsAreTouched(rows, leader, live);
    var b := rows[i];
    if b.id in Targets(rows, leader, live) {
      var x :| x in rows && x.id == b.id && Touched(x, leader, live);
      var j :| 0 <= j < |rows| && rows[j] == x;
    }
  }

  /** What marking does to the table, row by row. */
  lemma RowsReconciled(rows: seq<Binding>, leader: string, live: set<string>, clock: nat -> string, start: nat)
    requires UniqueIds(rows)
    ensures var ids := Targets(rows, leader, live);
            var after := Marked(rows, ids, clock, start);
            && |after| == |rows|
            && forall i | 0 <= i < |rows| ::
                 if Touched(rows[i], leader, live) then after[i].status == "failed" && after[i].id in ids
                 else after[i] == rows[i] && after[i].id !in ids
  {
    hide Targets, Marked, Touched;
    var ids := Targets(rows, leader, live);
    var after := Marked(rows, ids, clock, start);
    TargetsAreTouched(rows, leader, live);
    forall i | 0 <= i < |rows|
      ensures if Touched(rows[i], leader, live) then after[i].status == "failed" && after[i].id in ids
              else after[i] == rows[i] && after[i].id !in ids
    {
      RowsAfter(rows, leader, live, clock, start, i);
      if rows[i].id in ids {
        var b :| b in rows && b.id == rows[i].id && Touched(b, leader, live);
        GetUnique(rows, RowOf(rows, b));
        GetUnique(rows, i);
      }
    }
  }

  class BindingsDb {
    var rows: seq<Binding>
    var ticks: nat
    const clock: nat -> string

    ghost predicate Valid()
      reads this
    {
      UniqueIds(rows)
    }

    constructor (rows: seq<Binding>, clock: nat -> string)
      requires UniqueIds(rows)
      ensures Valid() && this.rows == rows && this.clock == clock
    {
      this.rows, this.clock, ticks := rows, clock, 0;
    }

    /** Exactly the bindings of the leader that are running or waiting without a live session are marked, in order;
        an invalid selector changes nothing; and the compare-and-swap never conflicts inside the transaction. */
    method ReconcileBindings(leaderId: Option<string>, planPath: Option<string>, live: set<string>)
      returns (r: Result<(string, seq<string>), DbError>)
      requires Valid()
      modifies this
      ensures Valid()
      ensures leaderId.Some? == planPath.Some? ==> r == Err(Invalid) && rows == old(rows)
      ensures leaderId.Some? != planPath.Some? ==>
                match ResolveLeaderId(old(rows), leaderId, planPath)
                case None => r == Err(Invalid) && rows == old(rows)
                case Some(leader) =>
                  && r == Ok((leader, Targets(old(rows), leader, live)))
                  && rows == Marked(old(rows), Targets(old(rows), leader, live), clock, old(ticks))
      ensures leaderId.Some? && planPath.None? ==>
                var known := exists b :: b in old(rows) && b.id == leaderId.value && b.role == "leader";
                r.Ok? == known && (known ==> r.value.0 == leaderId.value)
      ensures leaderId.None? && planPath.Some? ==> r.Ok? == (exists b :: b in old(rows) && LeadsPlan(b, planPath.value))
      ensures leaderId.None? && r.Ok? ==>
                exists b :: b in old(rows) && b.id == r.value.0 && LeadsPlan(b, planPath.value)
                  && forall c | c in old(rows) && LeadsPlan(c, planPath.value) :: !TextLess(b.updatedAt, c.updatedAt)
      ensures r.Ok? ==>
                && |rows| == |old(rows)|
                && forall i | 0 <= i < |rows| ::
                     if Touched(old(rows)[i], r.value.0, live)
                     then rows[i].status == "failed" && rows[i].id in r.value.1
                     else rows[i] == old(rows)[i] && rows[i].id !in r.value.1
    {
      hide Marked, Affected, Replaced, Get, ResolveLeaderId, Candidates, UniqueIds, Lost, LostIds, MarkFailed, Touched,
        LeadsPlan, TextLess, RECONCILE_SUMMARY;
      if leaderId.None? == planPath.None? {
        return Err(Invalid);
      }
      var resolved := ResolveLeaderId(rows, leaderId, planPath);
      if resolved.None? {
        Resolution(rows, leaderId, planPath);
        return Err(Invalid);
      }
      var candidates := Candidates(rows, resolved.value);
      CandidatesDistinct(rows, resolved.value);
      var table := rows;
      var transaction := table;
      var updated: seq<string> := [];
      assert candidates[..0] == [];
      LostIdsNone(live);
      MarkedNone(table, clock, ticks);
      for k := 0 to |candidates|
        invariant updated == LostIds(candidates[..k], live)
        invariant ticks == old(ticks) + |updated|
        invariant rows == table && transaction == Marked(table, updated, clock, old(ticks)) && UniqueIds(transaction)
      {
        var c := candidates[k];
        LostIdsStep(candidates, k, live);
        if Lost(c, live) {
          var stamp := clock(ticks);
          ticks := ticks + 1;
          var fail := b => MarkFailed(b, stamp);
          NotMarkedYet(candidates, k, live);
          StepMarks(table, c, updated, clock, old(ticks), fail);
          var affected := Affected(transaction, c.id, c.updatedAt, c.status);
          transaction := Replaced(transaction, c.id, c.updatedAt, c.status, fail);
          if affected != 1 {
            return Err(Conflict);
          }
          var verified := Get(transaction, c.id);
          if verified.None? || verified.value.status != "failed" {
            return Err(Conflict);
          }
          updated := updated + [c.id];
        }
      }
      assert candidates[..|candidates|] == candidates;
      Resolution(table, leaderId, planPath);
      RowsReconciled(table, resolved.value, live, clock, old(ticks));
      rows := transaction;
      return Ok((resolved.value, updated));
    }

    /** Closing writes the four terminal fields of one binding and its time stamp, or nothing. */
    method CloseBinding(
      id: string, status: string, progress: int, completionSummary: Option<string>, exitCode: Option<int>)
      returns (r: Result<Binding, DbError>)
      requires Valid()
      modifies this
      ensures Valid()
      ensures var valid := (status == "completed" || status == "failed") && 0 <= progress <= 100;
              var found := Get(old(rows), id);
              if !valid || found.None? then r == Err(Invalid) && rows == old(rows)
              else
                var closed := found.value.(
                  status := status, progress := progress, completionSummary := completionSummary, exitCode := exitCode,
                  updatedAt := clock(old(ticks)));
                && r == Ok(closed)
                && |rows| == |old(rows)|
                && forall i | 0 <= i < |rows| :: rows[i] == if old(rows)[i].id == id then closed else old(rows)[i]
    {
      if (status != "completed" && status != "failed") || progress < 0 || 100 < progress {
        return Err(Invalid);
      }
      var found := Get(rows, id);
      if found.None? {
        return Err(Invalid);
      }
      hide Affected, Get, Replaced, UniqueIds;
      var stamp := clock(ticks);
      ticks := ticks + 1;
      var close := (b: Binding) =>
        b.(status := status, progress := progress, completionSummary := completionSummary, exitCode := exitCode,
           updatedAt := stamp);
      StepCloses(rows, found.value, close);
      var affected := Affected(rows, id, found.value.updatedAt, found.value.status);
      var transaction := Replaced(rows, id, found.value.updatedAt, found.value.status, close);
      if affected != 1 {
        return Err(Conflict);
      }
      var binding := Get(transaction, id);
      if binding.None? || binding.value.status != status || binding.value.progress != progress {
        return Err(Conflict);
      }
      rows := transaction;
      return Ok(binding.value);
    }
  }

  // ---------- The order of the marked ids ----------

  ghost predicate Ordered(bindings: seq<Binding>) {
    forall i, j | 0 <= i < j < |bindings| :: !Before(bindings[j], bindings[i])
  }

  lemma {:induction false} InsertOrdered(b: Binding, sorted: seq<Binding>)
    requires Ordered(sorted)
    ensures Ordered(Insert(b, sorted))
  {
    if sorted == [] {
    } else if !Before(sorted[0], b) {
      forall x | x in sorted ensures !Before(x, b) {
        TextOrder(x.createdAt, sorted[0].createdAt, b.createdAt);
      }
    } else {
      InsertOrdered(b, sorted[1..]);
      TextOrder(sorted[0].createdAt, b.createdAt, b.createdAt);
      forall x | x in Insert(b, sorted[1..]) ensures !Before(x, sorted[0]) {
        if x != b {
          assert x in sorted[1..];
        }
      }
    }
  }

  /** The candidates are the rows in scope, ordered by `sort_order` and then `created_at`. */
  lemma {:induction false} CandidatesOrdered(rows: seq<Binding>, leader: string)
    ensures Ordered(Candidates(rows, leader))
  {
    if rows != [] {
      CandidatesOrdered(rows[1..], leader);
      if InScope(rows[0], leader) {
        InsertOrdered(rows[0], Candidates(rows[1..], leader));
      }
    }
  }

  /** The lost candidate behind each of the ids. */
  lemma {:induction false} LostInOrder(
    candidates: seq<Binding>, live: set<string>, i: nat, j: nat) returns (k: nat, l: nat)
    requires i < j < |LostIds(candidates, live)|
    ensures k < l < |candidates|
    ensures candidates[k].id == LostIds(candidates, live)[i] && candidates[l].id == LostIds(candidates, live)[j]
  {
    hide Lost;
    var n := |candidates| - 1;
    var ids := LostIds(candidates[..n], live);
    if j < |ids| {
      k, l := LostInOrder(candidates[..n], live, i, j);
    } else {
      LostIdsFrom(candidates[..n], live);
      assert ids[i] in ids;
      var b :| b in candidates[..n] && b.id == ids[i];
      k, l := RowOf(candidates[..n], b), n;
    }
  }

  lemma OneRow(rows: seq<Binding>, a: Binding, b: Binding)
    requires UniqueIds(rows) && a in rows && b in rows && a.id == b.id
    ensures a == b
  {
  }

  /** The ids are marked in the order of `sort_order`, and of `created_at` among equals. */
  lemma TargetsInOrder(rows: seq<Binding>, leader: string, live: set<string>, i: nat, j: nat)
    requires UniqueIds(rows) && i < j < |Targets(rows, leader, live)|
    ensures var ids := Targets(rows, leader, live);
            forall a, b | a in rows && b in rows && a.id == ids[i] && b.id == ids[j] ::
              a.sortOrder < b.sortOrder
                || (a.sortOrder == b.sortOrder && CompareText(b.createdAt, a.createdAt) != Less)
  {
    hide LostIds, Candidates;
    var candidates, ids := Candidates(rows, leader), Targets(rows, leader, live);
    CandidatesOrdered(rows, leader);
    var k, l := LostInOrder(candidates, live, i, j);
    forall a, b | a in rows && b in rows && a.id == ids[i] && b.id == ids[j]
      ensures a == candidates[k] && b == candidates[l]
    {
      OneRow(rows, a, candidates[k]);
      OneRow(rows, b, candidates[l]);
    }
  }

  // ---------- What a run achieves ----------

  lemma NoTargets(rows: seq<Binding>, leader: string, live: set<string>)
    ensures Targets(rows, leader, live) == [] <==> forall b | b in rows :: !Touched(b, leader, live)
  {
    hide Targets;
    var ids := Targets(rows, leader, live);
    TargetsAreTouched(rows, leader, live);
    if ids != [] {
      assert ids[0] in ids;
    } else {
      forall b | b in rows ensures !Touched(b, leader, live) {
        assert b.id !in ids;
      }
    }
  }

  /** After a run every running or waiting binding in scope has a live session, and nothing in scope is left to mark. */
  lemma NothingLost(rows: seq<Binding>, leader: string, live: set<string>, clock: nat -> string, start: nat)
    requires UniqueIds(rows)
    ensures var after := Marked(rows, Targets(rows, leader, live), clock, start);
            && (forall b | b in after && (b.id == leader || b.parentId == Some(leader)) ::
                  b.status == "running" || b.status == "waiting" ==> b.sessionId.Some? && b.sessionId.value in live)
            && Targets(after, leader, live) == []
  {
    hide Marked, Targets, RECONCILE_SUMMARY;
    var after := Marked(rows, Targets(rows, leader, live), clock, start);
    forall i | 0 <= i < |after| ensures !Touched(after[i], leader, live) {
      RowsAfter(rows, leader, live, clock, start, i);
    }
    NoTargets(after, leader, live);
  }

  /** Scope and the leader's role are not changed by marking. */
  lemma {:induction false} SameLeaderById(
    rows: seq<Binding>, id: string, ids: seq<string>, clock: nat -> string, start: nat)
    ensures ResolveLeaderId(Marked(rows, ids, clock, start), Some(id), None) == ResolveLeaderId(rows, Some(id), None)
  {
    hide Marked, MarkRow, LatestLeader;
    if rows != [] {
      SameLeaderById(rows[1..], id, ids, clock, start);
      MarkKeepsId(rows[0], ids, clock, start);
      assert Marked(rows, ids, clock, start)[1..] == Marked(rows[1..], ids, clock, start);
    }
  }

  /** Reconciling the same leader again changes nothing. */
  lemma SecondRunByLeader(
    rows: seq<Binding>, id: string, live: set<string>, clock: nat -> string, start: nat, later: nat)
    requires UniqueIds(rows)
    ensures var after := Marked(rows, Targets(rows, id, live), clock, start);
            && ResolveLeaderId(after, Some(id), None) == ResolveLeaderId(rows, Some(id), None)
            && Targets(after, id, live) == []
            && Marked(after, Targets(after, id, live), clock, later) == after
  {
    SameLeaderById(rows, id, Targets(rows, id, live), clock, start);
    NothingLost(rows, id, live, clock, start);
  }

  /** A row that a later run would mark is one it would have marked before, and that this run has not. */
  lemma TouchedAfter(
    rows: seq<Binding>, first: string, second: string, live: set<string>, clock: nat -> string, start: nat, i: nat)
    requires UniqueIds(rows) && i < |rows|
    ensures var b, after := rows[i], Marked(rows, Targets(rows, first, live), clock, start)[i];
            && (Touched(after, second, live) <==> Touched(b, second, live) && !Touched(b, first, live))
            && after.id == b.id && forall path :: LeadsPlan(after, path) == LeadsPlan(b, path)
  {
    hide Marked, Targets, RECONCILE_SUMMARY;
    RowsAfter(rows, first, live, clock, start, i);
  }

  lemma SameIndices(a: seq<Binding>, b: seq<Binding>, p: Binding -> bool, q: Binding -> bool)
    requires |a| == |b| && forall i | 0 <= i < |a| :: p(a[i]) == q(b[i])
    ensures (forall x | x in a :: !p(x)) <==> (forall x | x in b :: !q(x))
  {
    if forall x | x in a :: !p(x) {
      assert forall i | 0 <= i < |a| :: a[i] in a;
    }
    if forall x | x in b :: !q(x) {
      assert forall i | 0 <= i < |b| :: b[i] in b;
    }
  }

  /** Reconciling by plan path again resolves the leader anew, since marking moves `updated_at`, and marks what that
      leader's run would have marked before and the first one did not. */
  lemma SecondRunMarks(rows: seq<Binding>, path: string, live: set<string>, clock: nat -> string, start: nat)
    requires UniqueIds(rows) && ResolveLeaderId(rows, None, Some(path)).Some?
    ensures var first := ResolveLeaderId(rows, None, Some(path)).value;
            var after := Marked(rows, Targets(rows, first, live), clock, start);
            var second := ResolveLeaderId(after, None, Some(path));
            && second.Some?
            && (Targets(after, second.value, live) == [] <==>
                  forall b | b in rows && Touched(b, second.value, live) :: Touched(b, first, live))
  {
    hide Marked, Targets, Touched, LatestLeader, LeadsPlan;
    var first := ResolveLeaderId(rows, None, Some(path)).value;
    var after := Marked(rows, Targets(rows, first, live), clock, start);
    var leader := LatestLeader(rows, path).value;
    var i :| 0 <= i < |rows| && rows[i] == leader;
    TouchedAfter(rows, first, first, live, clock, start, i);
    assert after[i] in after && LeadsPlan(after[i], path);
    var second := ResolveLeaderId(after, None, Some(path)).value;
    NoTargets(after, second, live);
    forall j | 0 <= j < |rows|
      ensures Touched(after[j], second, live) <==> Touched(rows[j], second, live) && !Touched(rows[j], first, live)
    {
      TouchedAfter(rows, first, second, live, clock, start, j);
    }
    SameIndices(rows, after, b => Touched(b, second, live) && !Touched(b, first, live), b => Touched(b, second, live));
  }

  // ---------- Which leader the second run resolves ----------

  /** The stamps given from `start` on are later than every time in the table. */
  ghost predicate LaterThan(rows: seq<Binding>, clock: nat -> string, start: nat) {
    forall i, n: nat | 0 <= i < |rows| && start <= n :: TextLess(rows[i].updatedAt, clock(n))
  }

  ghost predicate Increasing(clock: nat -> string, start: nat) {
    forall m: nat, n: nat | start <= m < n :: TextLess(clock(m), clock(n))
  }

  predicate IsLeaderId(rows: seq<Binding>, id: string, path: string) {
    exists i | 0 <= i < |rows| :: rows[i].id == id && LeadsPlan(rows[i], path)
  }

  /** The leaders of the plan among `ids`, in their order. */
  function LeadersOf(rows: seq<Binding>, ids: seq<string>, path: string): seq<string> {
    if ids == [] then []
    else
      var n := |ids| - 1;
      LeadersOf(rows, ids[..n], path) + (if IsLeaderId(rows, ids[n], path) then [ids[n]] else [])
  }

  ghost predicate DistinctIds(ids: seq<string>) {
    forall i, j | 0 <= i < j < |ids| :: ids[i] != ids[j]
  }

  lemma {:induction false} LeadersAre(rows: seq<Binding>, ids: seq<string>, path: string)
    ensures forall id :: id in LeadersOf(rows, ids, path) <==> id in ids && IsLeaderId(rows, id, path)
  {
    hide IsLeaderId;
    if ids != [] {
      LeadersAre(rows, ids[..|ids| - 1], path);
      assert ids == ids[..|ids| - 1] + [ids[|ids| - 1]];
    }
  }

  /** Of distinct ids, the last leader is also the last in position. */
  lemma {:induction false} LastLeaderIsLast(rows: seq<Binding>, ids: seq<string>, path: string, other: string)
    requires DistinctIds(ids)
    requires var leaders := LeadersOf(rows, ids, path); other in leaders && other != leaders[|leaders| - 1]
    ensures var leaders := LeadersOf(rows, ids, path);
            && other in ids && leaders[|leaders| - 1] in ids
            && Position(ids, other) < Position(ids, leaders[|leaders| - 1])
  {
    hide IsLeaderId, Position;
    var n := |ids| - 1;
    var init, x := ids[..n], ids[n];
    assert ids == init + [x];
    LeadersAre(rows, ids, path);
    LeadersAre(rows, init, path);
    if IsLeaderId(rows, x, path) {
      assert x !in init;
      PositionExtends(init, x, x);
      PositionExtends(init, x, other);
    } else {
      var leaders := LeadersOf(rows, init, path);
      assert leaders + [] == leaders;
      LastLeaderIsLast(rows, init, path, other);
      PositionExtends(init, x, other);
      PositionExtends(init, x, leaders[|leaders| - 1]);
    }
  }

  lemma {:induction false} LostIdsDistinct(candidates: seq<Binding>, live: set<string>)
    requires UniqueIds(candidates)
    ensures DistinctIds(LostIds(candidates, live))
  {
    if candidates != [] {
      var n := |candidates| - 1;
      LostIdsDistinct(candidates[..n], live);
      NotMarkedYet(candidates, n, live);
    }
  }

  lemma TargetsDistinct(rows: seq<Binding>, leader: string, live: set<string>)
    requires UniqueIds(rows)
    ensures DistinctIds(Targets(rows, leader, live))
  {
    CandidatesDistinct(rows, leader);
    LostIdsDistinct(Candidates(rows, leader), live);
  }

  /** Marking no leader of the plan leaves the latest one in place. */
  lemma {:induction false} SameLatest(rows: seq<Binding>, after: seq<Binding>, path: string)
    requires |after| == |rows|
    requires forall i | 0 <= i < |rows| ::
               LeadsPlan(after[i], path) == LeadsPlan(rows[i], path)
                   && (LeadsPlan(rows[i], path) ==> after[i] == rows[i])
    ensures LatestLeader(after, path) == LatestLeader(rows, path)
  {
    hide TextLess, LeadsPlan;
    if rows != [] {
      SameLatest(rows[1..], after[1..], path);
    }
  }

  lemma LeaderHasId(rows: seq<Binding>, i: nat, path: string)
    requires i < |rows| && LeadsPlan(rows[i], path)
    ensures IsLeaderId(rows, rows[i].id, path)
  {
  }

  lemma MarkingKeepsLeaders(rows: seq<Binding>, path: string, ids: seq<string>, clock: nat -> string, start: nat)
    ensures var after := Marked(rows, ids, clock, start);
            forall i | 0 <= i < |rows| ::
              && LeadsPlan(after[i], path) == LeadsPlan(rows[i], path) && after[i].id == rows[i].id
              && (rows[i].id !in ids ==> after[i] == rows[i])
  {
    hide Position, RECONCILE_SUMMARY;
  }

  lemma NoLeaderMarked(rows: seq<Binding>, path: string, ids: seq<string>, clock: nat -> string, start: nat)
    requires LeadersOf(rows, ids, path) == []
    ensures LatestLeader(Marked(rows, ids, clock, start), path) == LatestLeader(rows, path)
  {
    hide LeadsPlan, LatestLeader, LeadersOf, Marked, IsLeaderId;
    var after := Marked(rows, ids, clock, start);
    LeadersAre(rows, ids, path);
    MarkingKeepsLeaders(rows, path, ids, clock, start);
    forall i | 0 <= i < |rows| && LeadsPlan(rows[i], path) ensures after[i] == rows[i] {
      LeaderHasId(rows, i, path);
      assert rows[i].id !in LeadersOf(rows, ids, path);
    }
    SameLatest(rows, after, path);
  }

  /** A marked row is later than one that was not marked. */
  lemma LaterIfUnmarked(rows: seq<Binding>, ids: seq<string>, clock: nat -> string, start: nat, i: nat, k: nat)
    requires i < |rows| && k < |rows| && rows[k].id in ids && LaterThan(rows, clock, start)
    ensures var after := Marked(rows, ids, clock, start);
            rows[i].id !in ids ==> TextLess(after[i].updatedAt, after[k].updatedAt)
  {
    hide TextLess, Position;
  }

  lemma IncreasingStamps(rows: seq<Binding>, ids: seq<string>, clock: nat -> string, start: nat, i: nat, k: nat)
    requires i < |rows| && k < |rows| && rows[i].id in ids && rows[k].id in ids && Increasing(clock, start)
    requires Position(ids, rows[i].id) < Position(ids, rows[k].id)
    ensures var after := Marked(rows, ids, clock, start); TextLess(after[i].updatedAt, after[k].updatedAt)
  {
    hide TextLess, Position;
  }

  /** If the leader at `k` is marked, the latest leader is a marked one, and no earlier in the order of marking. */
  lemma LatestIsMarked(
    rows: seq<Binding>, path: string, ids: seq<string>, clock: nat -> string, start: nat, k: nat)
    requires k < |rows| && LeadsPlan(rows[k], path) && rows[k].id in ids && LaterThan(rows, clock, start)
    ensures var second := LatestLeader(Marked(rows, ids, clock, start), path);
            && second.Some? && second.value.id in ids && IsLeaderId(rows, second.value.id, path)
            && (Increasing(clock, start) ==> Position(ids, rows[k].id) <= Position(ids, second.value.id))
  {
    hide LeadsPlan, TextLess, LatestLeader, Marked, IsLeaderId, Position, LaterThan, Increasing;
    var after := Marked(rows, ids, clock, start);
    MarkingKeepsLeaders(rows, path, ids, clock, start);
    assert after[k] in after;
    var second := LatestLeader(after, path).value;
    var i :| 0 <= i < |after| && after[i] == second;
    LeaderHasId(rows, i, path);
    LatestIsLatest(after, path);
    LaterIfUnmarked(rows, ids, clock, start, i, k);
    if Increasing(clock, start) && Position(ids, second.id) < Position(ids, rows[k].id) {
      IncreasingStamps(rows, ids, clock, start, i, k);
      assert false;
    }
  }

  /** The second run resolves the same leader if the first one marked no leader of the plan, and otherwise one of
      those it marked: with stamps that increase, the last of them. */
  lemma SecondLeader(rows: seq<Binding>, path: string, ids: seq<string>, clock: nat -> string, start: nat)
    requires UniqueIds(rows) && LatestLeader(rows, path).Some? && LaterThan(rows, clock, start) && DistinctIds(ids)
    ensures var leaders := LeadersOf(rows, ids, path);
            var second := LatestLeader(Marked(rows, ids, clock, start), path);
            && second.Some?
            && (leaders == [] ==> second == LatestLeader(rows, path))
            && (leaders != [] ==> second.value.id in leaders)
            && (leaders != [] && Increasing(clock, start) ==> second.value.id == leaders[|leaders| - 1])
  {
    hide LeadsPlan, TextLess, LatestLeader, LeadersOf, Position, LaterThan, Increasing, Marked, DistinctIds;
    var leaders := LeadersOf(rows, ids, path);
    if leaders == [] {
      NoLeaderMarked(rows, path, ids, clock, start);
      return;
    }
    LeadersAre(rows, ids, path);
    var last := leaders[|leaders| - 1];
    assert last in leaders;
    var k :| 0 <= k < |rows| && rows[k].id == last && LeadsPlan(rows[k], path);
    LatestIsMarked(rows, path, ids, clock, start, k);
    var second := LatestLeader(Marked(rows, ids, clock, start), path).value.id;
    if Increasing(clock, start) && second != last {
      LastLeaderIsLast(rows, ids, path, second);
      assert false;
    }
  }

  /** No lost row but the two leaders works for `leader`: what its run would mark, the first leader's run marks. */
  predicate NothingMore(rows: seq<Binding>, first: string, leader: string, live: set<string>) {
    forall b | b in rows && b.parentId == Some(leader) && Lost(b, live) :: b.id == first || b.id == leader
  }

  /** What the second leader's run would mark and the first one's did not: the lost rows that work for the second
      leader, but for the two leaders themselves. */
  lemma OnlyItsWorkers(rows: seq<Binding>, first: string, second: string, live: set<string>)
    requires UniqueIds(rows) && second in Targets(rows, first, live)
    ensures (forall b | b in rows && Touched(b, second, live) :: Touched(b, first, live))
       <==> second == first || NothingMore(rows, first, second, live)
  {
    hide Targets, Lost;
    TargetsAreTouched(rows, first, live);
    var s :| s in rows && s.id == second && Touched(s, first, live);
    forall b | b in rows && b.id == second ensures b == s {
      OneRow(rows, b, s);
    }
    if second != first {
      forall b | b in rows && b.parentId == Some(second) && Lost(b, live)
        ensures Touched(b, first, live) <==> b.id == first || b.id == second
      {
      }
    }
  }

  /** The leader the second run resolves, read off the table before the first: the last leader of the plan among those
      the first run marks, or the first one's leader again. */
  function SecondLeaderId(rows: seq<Binding>, first: string, path: string, live: set<string>): string {
    var leaders := LeadersOf(rows, Targets(rows, first, live), path);
    if leaders == [] then first else leaders[|leaders| - 1]
  }

  /** With stamps that increase from row to row, the second run's leader is the last one marked, and the run changes
      nothing exactly if that is the first leader again, or no lost row but the two leaders works for it. */
  lemma SecondRunInOrder(rows: seq<Binding>, path: string, live: set<string>, clock: nat -> string, start: nat)
    requires UniqueIds(rows) && ResolveLeaderId(rows, None, Some(path)).Some?
    requires LaterThan(rows, clock, start) && Increasing(clock, start)
    ensures var first := ResolveLeaderId(rows, None, Some(path)).value;
            var after := Marked(rows, Targets(rows, first, live), clock, start);
            var second := SecondLeaderId(rows, first, path, live);
            && ResolveLeaderId(after, None, Some(path)) == Some(second)
            && (Targets(after, second, live) == [] <==> second == first || NothingMore(rows, first, second, live))
  {
    hide Marked, Targets, LatestLeader, LeadsPlan, LaterThan, Increasing, Touched, Lost, LeadersOf;
    var first := ResolveLeaderId(rows, None, Some(path)).value;
    var ids, second := Targets(rows, first, live), SecondLeaderId(rows, first, path, live);
    TargetsDistinct(rows, first, live);
    SecondLeader(rows, path, ids, clock, start);
    SecondRunMarks(rows, path, live, clock, start);
    LeadersAre(rows, ids, path);
    if second != first {
      OnlyItsWorkers(rows, first, second, live);
    }
  }

  // ---------- Whatever the stamps ----------

  /** A second run by plan path, after a first one with these stamps, marks nothing. */
  ghost predicate SecondRunIdle(
    rows: seq<Binding>, path: string, live: set<string>, clock: nat -> string, start: nat)
    requires ResolveLeaderId(rows, None, Some(path)).Some?
  {
    var first := ResolveLeaderId(rows, None, Some(path)).value;
    var after := Marked(rows, Targets(rows, first, live), clock, start);
    var second := ResolveLeaderId(after, None, Some(path));
    second.Some? && Targets(after, second.value, live) == []
  }

  lemma LaterLonger(a: string, c: char)
    ensures TextLess(a, a + [c])
  {
    if a != [] {
      LaterLonger(a[1..], c);
      ConcatHead(a, [c]);
    }
  }

  lemma LessIsTransitive(a: string, b: string, c: string)
    requires TextLess(a, b) && TextLess(b, c)
    ensures TextLess(a, c)
  {
    hide CompareText;
    TextReverses(a, b);
    TextReverses(b, c);
    TextTransitive(a, b, c);
  }

  lemma NotLaterThanLater(a: string, b: string, c: string)
    requires !TextLess(b, a) && TextLess(b, c)
    ensures TextLess(a, c)
  {
    hide CompareText;
    TextReverses(a, b);
    TextReverses(b, c);
    TextReverses(a, c);
    TextTransitive(a, b, c);
  }

  lemma BeyondStep(rows: seq<Binding>, rest: string, mine: string, t: string)
    requires rows != [] && mine == rows[0].updatedAt && forall b | b in rows[1..] :: TextLess(b.updatedAt, rest)
    requires t == (if TextLess(rest, mine) then mine else rest) + "0"
    ensures forall b | b in rows :: TextLess(b.updatedAt, t)
  {
    hide TextLess;
    LaterLonger(rest, '0');
    LaterLonger(mine, '0');
    TextOrder(rest, mine, t);
    forall b | b in rows ensures TextLess(b.updatedAt, t) {
      if TextLess(rest, mine) {
        if b in rows[1..] {
          LessIsTransitive(b.updatedAt, rest, mine);
          LessIsTransitive(b.updatedAt, mine, t);
        }
      } else if b in rows[1..] {
        LessIsTransitive(b.updatedAt, rest, t);
      } else {
        NotLaterThanLater(mine, rest, t);
      }
    }
  }

  /** A time later than all in the table. */
  function Beyond(rows: seq<Binding>): (t: string)
    ensures forall b | b in rows :: TextLess(b.updatedAt, t)
  {
    if rows == [] then ""
    else
      var rest, mine := Beyond(rows[1..]), rows[0].updatedAt;
      var t := (if TextLess(rest, mine) then mine else rest) + "0";
      BeyondStep(rows, rest, mine, t);
      t
  }

  /** Stamps of which that of `id` is `high` and every other one `low`. */
  function Favouring(ids: seq<string>, id: string, start: nat, low: string, high: string): nat -> string
    requires id in ids
  {
    n => if n == start + Position(ids, id) then high else low
  }

  lemma FavouringIsLater(rows: seq<Binding>, ids: seq<string>, id: string, start: nat, low: string, high: string)
    requires id in ids && TextLess(low, high) && forall b | b in rows :: TextLess(b.updatedAt, low)
    ensures LaterThan(rows, Favouring(ids, id, start, low, high), start)
  {
    hide TextLess, Position;
    forall i, n: nat | 0 <= i < |rows| && start <= n
      ensures TextLess(rows[i].updatedAt, Favouring(ids, id, start, low, high)(n))
    {
      LessIsTransitive(rows[i].updatedAt, low, high);
    }
  }

  lemma StampOf(rows: seq<Binding>, ids: seq<string>, clock: nat -> string, start: nat, i: nat)
    requires i < |rows| && rows[i].id in ids
    ensures Marked(rows, ids, clock, start)[i].updatedAt == clock(start + Position(ids, rows[i].id))
  {
    hide Position, RECONCILE_SUMMARY;
  }

  lemma OnePosition(ids: seq<string>, a: string, b: string)
    requires a in ids && b in ids
    ensures Position(ids, a) == Position(ids, b) <==> a == b
  {
    hide Position;
    assert ids[Position(ids, a)] == a && ids[Position(ids, b)] == b;
  }

  /** Among marked rows, that of `id` alone has the later stamp. */
  lemma FavouredStamp(
    rows: seq<Binding>, ids: seq<string>, id: string, start: nat, low: string, high: string, i: nat)
    requires i < |rows| && id in ids && rows[i].id in ids
    ensures Marked(rows, ids, Favouring(ids, id, start, low, high), start)[i].updatedAt
         == if rows[i].id == id then high else low
  {
    hide Marked, Position;
    OnePosition(ids, rows[i].id, id);
    StampOf(rows, ids, Favouring(ids, id, start, low, high), start, i);
  }

  /** Any leader of the plan that the first run marks can become the second run's. */
  lemma AnyLeaderCanBeSecond(
    rows: seq<Binding>, path: string, ids: seq<string>, id: string, start: nat, low: string, high: string)
    requires id in ids && IsLeaderId(rows, id, path)
    requires TextLess(low, high) && forall b | b in rows :: TextLess(b.updatedAt, low)
    ensures var second := LatestLeader(Marked(rows, ids, Favouring(ids, id, start, low, high), start), path);
            second.Some? && second.value.id == id
  {
    hide LeadsPlan, TextLess, LatestLeader, Marked, Position, LaterThan, Favouring;
    var clock := Favouring(ids, id, start, low, high);
    var after := Marked(rows, ids, clock, start);
    var k :| 0 <= k < |rows| && rows[k].id == id && LeadsPlan(rows[k], path);
    hide IsLeaderId;
    FavouringIsLater(rows, ids, id, start, low, high);
    MarkingKeepsLeaders(rows, path, ids, clock, start);
    LatestIsMarked(rows, path, ids, clock, start, k);
    LatestIsLatest(after, path);
    var second := LatestLeader(after, path).value;
    var i :| 0 <= i < |after| && after[i] == second;
    FavouredStamp(rows, ids, id, start, low, high, i);
    FavouredStamp(rows, ids, id, start, low, high, k);
    if second.id != id {
      assert false;
    }
  }

  lemma IdleUnderAny(rows: seq<Binding>, path: string, live: set<string>, clock: nat -> string, start: nat)
    requires UniqueIds(rows) && ResolveLeaderId(rows, None, Some(path)).Some? && LaterThan(rows, clock, start)
    requires var first := ResolveLeaderId(rows, None, Some(path)).value;
             forall l | l in LeadersOf(rows, Targets(rows, first, live), path) ::
               l == first || NothingMore(rows, first, l, live)
    ensures SecondRunIdle(rows, path, live, clock, start)
  {
    hide Marked, Targets, LatestLeader, LeadsPlan, LaterThan, Touched, Lost, LeadersOf;
    var first := ResolveLeaderId(rows, None, Some(path)).value;
    var ids := Targets(rows, first, live);
    TargetsDistinct(rows, first, live);
    SecondLeader(rows, path, ids, clock, start);
    SecondRunMarks(rows, path, live, clock, start);
    LeadersAre(rows, ids, path);
    if LeadersOf(rows, ids, path) != [] {
      OnlyItsWorkers(rows, first, LatestLeader(Marked(rows, ids, clock, start), path).value.id, live);
    }
  }

  lemma MoreUnderSome(rows: seq<Binding>, path: string, live: set<string>, start: nat, l: string)
    requires UniqueIds(rows) && ResolveLeaderId(rows, None, Some(path)).Some?
    requires var first := ResolveLeaderId(rows, None, Some(path)).value;
             && l in LeadersOf(rows, Targets(rows, first, live), path)
             && l != first && !NothingMore(rows, first, l, live)
    ensures exists clock :: LaterThan(rows, clock, start) && !SecondRunIdle(rows, path, live, clock, start)
  {
    hide Marked, Targets, LatestLeader, LeadsPlan, LaterThan, Touched, Lost, LeadersOf, Favouring, Beyond, TextLess;
    hide NothingMore;
    var first := ResolveLeaderId(rows, None, Some(path)).value;
    var ids := Targets(rows, first, live);
    LeadersAre(rows, ids, path);
    var low := Beyond(rows);
    var high := low + "0";
    LaterLonger(low, '0');
    var clock := Favouring(ids, l, start, low, high);
    FavouringIsLater(rows, ids, l, start, low, high);
    AnyLeaderCanBeSecond(rows, path, ids, l, start, low, high);
    SecondRunMarks(rows, path, live, clock, start);
    OnlyItsWorkers(rows, first, l, live);
  }

  /** A second run by plan path marks nothing, whatever later stamps the first one gave, ties included, exactly if every
      leader of the plan that the first run marks is the first leader itself or has no lost worker but the two of
      them.  Everything is said of the table before the first run. */
  lemma SecondRunByPlan(rows: seq<Binding>, path: string, live: set<string>, start: nat)
    requires UniqueIds(rows) && ResolveLeaderId(rows, None, Some(path)).Some?
    ensures var first := ResolveLeaderId(rows, None, Some(path)).value;
            (forall clock | LaterThan(rows, clock, start) :: SecondRunIdle(rows, path, live, clock, start))
              <==> forall l | l in LeadersOf(rows, Targets(rows, first, live), path) ::
                     l == first || NothingMore(rows, first, l, live)
  {
    hide Targets, LaterThan, LeadersOf, NothingMore, SecondRunIdle, ResolveLeaderId, UniqueIds;
    var first := ResolveLeaderId(rows, None, Some(path)).value;
    var leaders := LeadersOf(rows, Targets(rows, first, live), path);
    if forall l | l in leaders :: l == first || NothingMore(rows, first, l, live) {
      forall clock | LaterThan(rows, clock, start) ensures SecondRunIdle(rows, path, live, clock, start) {
        IdleUnderAny(rows, path, live, clock, start);
      }
    } else {
      var l :| l in leaders && l != first && !NothingMore(rows, first, l, live);
      MoreUnderSome(rows, path, live, start, l);
    }
  }

  /** Whatever the stamps, as long as they are later than the table: a first run that marks no leader of the plan but
      its own is followed by one that changes nothing. */
  lemma SecondRunBySameLeader(rows: seq<Binding>, path: string, live: set<string>, clock: nat -> string, start: nat)
    requires UniqueIds(rows) && ResolveLeaderId(rows, None, Some(path)).Some? && LaterThan(rows, clock, start)
    requires var first := ResolveLeaderId(rows, None, Some(path)).value;
             forall id | id in Targets(rows, first, live) && IsLeaderId(rows, id, path) :: id == first
    ensures var first := ResolveLeaderId(rows, None, Some(path)).value;
            var after := Marked(rows, Targets(rows, first, live), clock, start);
            ResolveLeaderId(after, None, Some(path)) == Some(first) && Targets(after, first, live) == []
  {
    hide Marked, Targets, LatestLeader, LeadsPlan, LaterThan, Increasing, Touched, Lost, LeadersOf, IsLeaderId;
    var first := ResolveLeaderId(rows, None, Some(path)).value;
    var ids := Targets(rows, first, live);
    TargetsDistinct(rows, first, live);
    SecondLeader(rows, path, ids, clock, start);
    SecondRunMarks(rows, path, live, clock, start);
    LeadersAre(rows, ids, path);
  }

  function ExampleRow(id: string, role: string, parent: Option<string>, status: string, updatedAt: string): Binding {
    var path := if role == "leader" then Some("p") else None;
    Binding(id, role, parent, path, None, None, status, 0, None, None, 0, "", updatedAt, "")
  }

  const FIRST_LEADER := ExampleRow("a", "leader", None, "pending", "2")
  const SECOND_LEADER := ExampleRow("b", "leader", Some("a"), "running", "1")
  const ITS_WORKER := ExampleRow("c", "worker", Some("b"), "running", "1")
  const TWO_LEADERS := [FIRST_LEADER, SECOND_LEADER, ITS_WORKER]
  const LATER: nat -> string := _ => "3"

  /** The first run marks the second leader alone. */
  lemma TwoLeadersMarked()
    ensures var after := Marked(TWO_LEADERS, Targets(TWO_LEADERS, "a", {}), LATER, 0);
            && after == [FIRST_LEADER, after[1], ITS_WORKER]
            && after[1].id == "b" && after[1].updatedAt == "3" && LeadsPlan(after[1], "p")
  {
    hide Targets;
    assert Touched(SECOND_LEADER, "a", {}) && !Touched(FIRST_LEADER, "a", {}) && !Touched(ITS_WORKER, "a", {});
    RowsAfter(TWO_LEADERS, "a", {}, LATER, 0, 0);
    RowsAfter(TWO_LEADERS, "a", {}, LATER, 0, 1);
    RowsAfter(TWO_LEADERS, "a", {}, LATER, 0, 2);
    TargetsAreTouched(TWO_LEADERS, "a", {});
    assert TWO_LEADERS[1] == SECOND_LEADER;
    assert "b" in Targets(TWO_LEADERS, "a", {}) by {
      assert SECOND_LEADER in TWO_LEADERS && SECOND_LEADER.id == "b";
    }
  }

  lemma StampOrder()
    ensures TextLess("1", "2") && TextLess("2", "3") && !TextLess("2", "1") && !TextLess("3", "2")
  {
  }

  lemma LatestOfTwo(a: Binding, b: Binding, c: Binding)
    requires LeadsPlan(a, "p") && LeadsPlan(b, "p") && !LeadsPlan(c, "p")
    ensures LatestLeader([a, b, c], "p") == Some(if TextLess(a.updatedAt, b.updatedAt) then b else a)
  {
    assert [a, b, c][1..] == [b, c] && [b, c][1..] == [c] && [c][1..] == [];
    assert LatestLeader([c], "p") == None;
    assert LatestLeader([b, c], "p") == Some(b);
  }

  /** A plan with two leaders, one working for the other: marking the second makes it the latest, so the second run
      reconciles its scope instead. */
  lemma SecondRunByPlanCanMarkMore()
    ensures var after := Marked(TWO_LEADERS, Targets(TWO_LEADERS, "a", {}), LATER, 0);
            && UniqueIds(TWO_LEADERS) && ResolveLeaderId(TWO_LEADERS, None, Some("p")) == Some("a")
            && ResolveLeaderId(after, None, Some("p")) == Some("b") && Targets(after, "b", {}) != []
  {
    hide Targets, LatestLeader, TextLess, Marked;
    var after := Marked(TWO_LEADERS, Targets(TWO_LEADERS, "a", {}), LATER, 0);
    StampOrder();
    LatestOfTwo(FIRST_LEADER, SECOND_LEADER, ITS_WORKER);
    TwoLeadersMarked();
    LatestOfTwo(FIRST_LEADER, after[1], ITS_WORKER);
    NoTargets(after, "b", {});
    assert ITS_WORKER in after && Touched(ITS_WORKER, "b", {});
  }

  // ---------- Stamps that tie ----------

  const TIED_LEADER := ExampleRow("c", "leader", Some("a"), "running", "1")
  const WORKER_OF_B := ExampleRow("d", "worker", Some("b"), "running", "1")
  const TIED := [FIRST_LEADER, SECOND_LEADER, TIED_LEADER, WORKER_OF_B]

  lemma NoneBefore(a: Binding, b: Binding)
    requires a.sortOrder == b.sortOrder && a.createdAt == b.createdAt
    ensures !Before(a, b)
  {
    TextReverses(a.createdAt, b.createdAt);
  }

  /** A row that the first candidate does not come before stands first. */
  lemma CandidateFirst(b: Binding, rows: seq<Binding>, leader: string)
    requires InScope(b, leader)
    requires var later := Candidates(rows, leader); later == [] || !Before(later[0], b)
    ensures Candidates([b] + rows, leader) == [b] + Candidates(rows, leader)
  {
    assert ([b] + rows)[1..] == rows;
  }

  lemma TiedCandidates(a: Binding, b: Binding, c: Binding, d: Binding, leader: string)
    requires InScope(a, leader) && InScope(b, leader) && InScope(c, leader) && !InScope(d, leader)
    requires !Before(b, a) && !Before(c, b)
    ensures Candidates([a, b, c, d], leader) == [a, b, c]
  {
    assert [d][1..] == [] && Candidates([d], leader) == [];
    hide Candidates, Before, InScope;
    CandidateFirst(c, [d], leader);
    assert [c] + [d] == [c, d];
    CandidateFirst(b, [c, d], leader);
    assert [b] + [c, d] == [b, c, d];
    CandidateFirst(a, [b, c, d], leader);
    assert [a] + [b, c, d] == [a, b, c, d];
  }

  lemma TwoLost(a: Binding, b: Binding, c: Binding, live: set<string>)
    requires !Lost(a, live) && Lost(b, live) && Lost(c, live)
    ensures LostIds([a, b, c], live) == [b.id, c.id]
  {
    hide Lost, LostIds;
    var all := [a, b, c];
    LostIdsNone(live);
    LostIdsStep(all, 0, live);
    LostIdsStep(all, 1, live);
    LostIdsStep(all, 2, live);
    assert all[..0] == [] && all[..3] == all;
  }

  lemma TiedTargets()
    ensures Targets(TIED, "a", {}) == ["b", "c"]
  {
    assert InScope(FIRST_LEADER, "a") && InScope(SECOND_LEADER, "a") && InScope(TIED_LEADER, "a");
    assert !InScope(WORKER_OF_B, "a") && !Lost(FIRST_LEADER, {}) && Lost(SECOND_LEADER, {}) && Lost(TIED_LEADER, {});
    hide Before, InScope, Lost, LostIds, Candidates;
    NoneBefore(SECOND_LEADER, FIRST_LEADER);
    NoneBefore(TIED_LEADER, SECOND_LEADER);
    TiedCandidates(FIRST_LEADER, SECOND_LEADER, TIED_LEADER, WORKER_OF_B, "a");
    TwoLost(FIRST_LEADER, SECOND_LEADER, TIED_LEADER, {});
  }

  /** Both leaders that are marked get the same stamp. */
  lemma TiedMarked()
    ensures var after := Marked(TIED, Targets(TIED, "a", {}), LATER, 0);
            && after == [FIRST_LEADER, after[1], after[2], WORKER_OF_B]
            && after[1].id == "b" && after[1].updatedAt == "3" && LeadsPlan(after[1], "p")
            && after[2].id == "c" && after[2].updatedAt == "3" && LeadsPlan(after[2], "p")
  {
    TiedTargets();
    hide Targets, Position;
    assert "a" !in ["b", "c"] && "d" !in ["b", "c"];
  }

  /** Among equals the first in the table is taken. */
  lemma LatestOfThree(a: Binding, b: Binding, c: Binding, d: Binding)
    requires LeadsPlan(a, "p") && LeadsPlan(b, "p") && LeadsPlan(c, "p") && !LeadsPlan(d, "p")
    requires b.updatedAt == c.updatedAt
    ensures LatestLeader([a, b, c, d], "p") == Some(if TextLess(a.updatedAt, b.updatedAt) then b else a)
  {
    hide TextLess;
    LaterOfTwo(b.updatedAt, b.updatedAt, b.updatedAt);
    assert [a, b, c, d][1..] == [b, c, d] && [b, c, d][1..] == [c, d] && [c, d][1..] == [d] && [d][1..] == [];
    assert LatestLeader([d], "p") == None;
    assert LatestLeader([c, d], "p") == Some(c);
    assert LatestLeader([b, c, d], "p") == Some(b);
  }

  lemma TiedTable()
    ensures UniqueIds(TIED) && LaterThan(TIED, LATER, 0) && TextLess("2", "3") && !TextLess("2", "1")
  {
    hide TextLess;
    StampOrder();
    LessIsTransitive("1", "2", "3");
  }

  lemma TiedLast()
    ensures SecondLeaderId(TIED, "a", "p", {}) == "c" && NothingMore(TIED, "a", "c", {})
  {
    TiedTargets();
    assert TIED[2] == TIED_LEADER && IsLeaderId(TIED, "c", "p");
    hide Targets, IsLeaderId, Lost;
    assert LeadersOf(TIED, ["b", "c"], "p")
        == LeadersOf(TIED, ["b", "c"][..1], "p") + (if IsLeaderId(TIED, "c", "p") then ["c"] else []);
    forall b | b in TIED ensures b.parentId != Some("c") {}
  }

  lemma TiedSecond()
    ensures ResolveLeaderId(TIED, None, Some("p")) == Some("a")
    ensures ResolveLeaderId(Marked(TIED, Targets(TIED, "a", {}), LATER, 0), None, Some("p")) == Some("b")
  {
    hide Targets, LatestLeader, TextLess, Marked;
    var after := Marked(TIED, Targets(TIED, "a", {}), LATER, 0);
    TiedTable();
    TiedMarked();
    LatestOfThree(FIRST_LEADER, SECOND_LEADER, TIED_LEADER, WORKER_OF_B);
    LatestOfThree(FIRST_LEADER, after[1], after[2], WORKER_OF_B);
  }

  lemma TiedWorkerLost()
    ensures Targets(Marked(TIED, Targets(TIED, "a", {}), LATER, 0), "b", {}) != []
  {
    hide Targets, Marked;
    var after := Marked(TIED, Targets(TIED, "a", {}), LATER, 0);
    TiedMarked();
    NoTargets(after, "b", {});
    assert after[3] == WORKER_OF_B && Touched(WORKER_OF_B, "b", {});
  }

  /** Two leaders marked at the same time: the last of them has no worker, and yet the second run marks more, since
      among equals it resolves the other one. */
  lemma TiedStampsCanMarkMore()
    ensures UniqueIds(TIED) && LaterThan(TIED, LATER, 0) && ResolveLeaderId(TIED, None, Some("p")) == Some("a")
    ensures SecondLeaderId(TIED, "a", "p", {}) == "c" && NothingMore(TIED, "a", "c", {})
    ensures ResolveLeaderId(Marked(TIED, Targets(TIED, "a", {}), LATER, 0), None, Some("p")) == Some("b")
    ensures !SecondRunIdle(TIED, "p", {}, LATER, 0)
  {
    TiedTable();
    TiedLast();
    TiedSecond();
    TiedWorkerLost();
    hide TIED, Targets, ResolveLeaderId, Marked, UniqueIds, LaterThan, SecondLeaderId, NothingMore;
  }
}
