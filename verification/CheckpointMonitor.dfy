/** Throttled checkpoint requests: the table of last requests is pruned in every round, and nobody can tell. */
module CheckpointMonitor {

  /** A scan of the sessions that need a checkpoint, at a time in milliseconds. */
  datatype Round = Round(candidates: seq<string>, now: nat)

  type Table = map<string, nat>

  /** `now.saturating_duration_since(at) < throttle` for a recorded request. */
  predicate Recent(table: Table, session: string, now: nat, throttle: nat) {
    session in table && (if table[session] <= now then now - table[session] else 0) < throttle
  }

  /** `retain`: forgets the sessions that are neither candidates nor inside their window. */
  function Prune(table: Table, round: Round, throttle: nat): Table {
    map s | s in table && (s in round.candidates || Recent(table, s, round.now, throttle)) :: table[s]
  }

  datatype Picked = Picked(selected: seq<string>, table: Table)

  /** The filter: lets the first `k` candidates outside their window pass, and records them. */
  function Pick(candidates: seq<string>, k: nat, table: Table, now: nat, throttle: nat): Picked
    requires k <= |candidates|
  {
    if k == 0 then Picked([], table)
    else
      var before := Pick(candidates, k - 1, table, now, throttle);
      var session := candidates[k - 1];
      if Recent(before.table, session, now, throttle) then before
      else Picked(before.selected + [session], before.table[session := now])
  }

  function Select(round: Round, table: Table, throttle: nat): Picked {
    Pick(round.candidates, |round.candidates|, table, round.now, throttle)
  }

  function Throttled(round: Round, table: Table, throttle: nat): Picked {
    Select(round, Prune(table, round, throttle), throttle)
  }

  // ---------- The monitor ----------

  datatype Run = Run(table: Table, published: seq<seq<string>>)

  function Scanned(rounds: seq<Round>, throttle: nat): (run: Run)
    ensures |run.published| == |rounds|
  {
    if rounds == [] then Run(map[], [])
    else
      var n := |rounds| - 1;
      var before := Scanned(rounds[..n], throttle);
      if rounds[n].candidates == [] then Run(before.table, before.published + [[]])
      else
        var picked := Throttled(rounds[n], before.table, throttle);
        Run(picked.table, before.published + [picked.selected])
  }

  class Monitor {
    var lastRequested: Table

    constructor ()
      ensures lastRequested == map[]
    {
      lastRequested := map[];
    }

    method SelectThrottled(candidates: seq<string>, now: nat, throttle: nat) returns (selected: seq<string>)
      modifies this
      ensures Picked(selected, lastRequested)
           == Throttled(Round(candidates, now), old(lastRequested), throttle)
    {
      lastRequested := map s
        | s in lastRequested && (s in candidates || Recent(lastRequested, s, now, throttle)) :: lastRequested[s];
      ghost var pruned := lastRequested;
      assert pruned == Prune(old(lastRequested), Round(candidates, now), throttle);
      selected := [];
      for i := 0 to |candidates|
        invariant Picked(selected, lastRequested) == Pick(candidates, i, pruned, now, throttle)
      {
        if !Recent(lastRequested, candidates[i], now, throttle) {
          lastRequested := lastRequested[candidates[i] := now];
          selected := selected + [candidates[i]];
        }
      }
    }

    /** The scan loop, over any finite number of rounds; a round without candidates is skipped. */
    method Scan(rounds: seq<Round>, throttle: nat) returns (published: seq<seq<string>>)
      requires lastRequested == map[]
      modifies this
      ensures Run(lastRequested, published) == Scanned(rounds, throttle)
    {
      published := [];
      for i := 0 to |rounds|
        invariant Run(lastRequested, published) == Scanned(rounds[..i], throttle)
      {
        assert rounds[..i + 1][..i] == rounds[..i];
        var selected: seq<string> := [];
        if rounds[i].candidates != [] {
          selected := SelectThrottled(rounds[i].candidates, rounds[i].now, throttle);
        }
        published := published + [selected];
      }
      assert rounds[..|rounds|] == rounds;
    }
  }

  /** The same loop over a table that is never pruned. */
  function ScannedUnpruned(rounds: seq<Round>, throttle: nat): (run: Run)
    ensures |run.published| == |rounds|
  {
    if rounds == [] then Run(map[], [])
    else
      var n := |rounds| - 1;
      var before := ScannedUnpruned(rounds[..n], throttle);
      var picked := Select(rounds[n], before.table, throttle);
      Run(picked.table, before.published + [picked.selected])
  }

  // ---------- Pruning is unobservable ----------

  predicate Monotone(rounds: seq<Round>) {
    forall i, j | 0 <= i < j < |rounds| :: rounds[i].now <= rounds[j].now
  }

  /** Not inside its window now, nor ever again. */
  predicate Expired(table: Table, session: string, now: nat, throttle: nat) {
    session in table ==> table[session] + throttle <= now
  }

  predicate InPast(table: Table, now: nat) {
    forall s | s in table :: table[s] <= now
  }

  /** The tables agree on every session that can still be throttled. */
  ghost predicate Agree(pruned: Table, full: Table, now: nat, throttle: nat) {
    && InPast(full, now)
    && forall s :: (s in pruned && s in full && pruned[s] == full[s])
             || (Expired(pruned, s, now, throttle) && Expired(full, s, now, throttle))
  }

  lemma {:induction false} PickAgrees(
    candidates: seq<string>, k: nat, pruned: Table, full: Table, now: nat, throttle: nat)
    requires k <= |candidates| && Agree(pruned, full, now, throttle)
    ensures var p, f := Pick(candidates, k, pruned, now, throttle), Pick(candidates, k, full, now, throttle);
            p.selected == f.selected && Agree(p.table, f.table, now, throttle)
  {
    if k > 0 {
      PickAgrees(candidates, k - 1, pruned, full, now, throttle);
      var p, f := Pick(candidates, k - 1, pruned, now, throttle), Pick(candidates, k - 1, full, now, throttle);
      var s := candidates[k - 1];
      assert (s in p.table && s in f.table && p.table[s] == f.table[s])
          || (Expired(p.table, s, now, throttle) && Expired(f.table, s, now, throttle));
      assert Recent(p.table, s, now, throttle) == Recent(f.table, s, now, throttle);
    }
  }

  /** Over any rounds in order of time, the pruned and the never-pruned table publish the same requests. */
  lemma {:induction false} PruningIsUnobservable(rounds: seq<Round>, throttle: nat)
    requires Monotone(rounds)
    ensures var run, full := Scanned(rounds, throttle), ScannedUnpruned(rounds, throttle);
            && run.published == full.published
            && (rounds != [] ==> Agree(run.table, full.table, rounds[|rounds| - 1].now, throttle))
  {
    if rounds != [] {
      var n := |rounds| - 1;
      PruningIsUnobservable(rounds[..n], throttle);
      var run, full := Scanned(rounds[..n], throttle), ScannedUnpruned(rounds[..n], throttle);
      if n > 0 { assert rounds[..n][n - 1] == rounds[n - 1]; }
      assert Agree(run.table, full.table, rounds[n].now, throttle);
      var pruned := Prune(run.table, rounds[n], throttle);
      assert Agree(pruned, full.table, rounds[n].now, throttle);
      PickAgrees(rounds[n].candidates, |rounds[n].candidates|, pruned, full.table, rounds[n].now, throttle);
    }
  }

  // ---------- What is published, without any table ----------

  /** No request for the session was published less than the throttle ago. */
  ghost predicate Due(rounds: seq<Round>, published: seq<seq<string>>, n: nat, session: string, throttle: nat)
    requires n < |rounds| <= |published|
  {
    forall i | 0 <= i < n && session in published[i] :: rounds[i].now + throttle <= rounds[n].now
  }

  /** The never-pruned table holds the time of the session's last request. */
  ghost predicate Remembers(rounds: seq<Round>, run: Run, s: string)
    requires |run.published| == |rounds|
  {
    && (s in run.table ==> exists i | 0 <= i < |rounds| :: s in run.published[i] && rounds[i].now == run.table[s])
    && (forall i | 0 <= i < |rounds| && s in run.published[i] :: s in run.table && rounds[i].now <= run.table[s])
  }

  predicate Distinct(sessions: seq<string>) {
    forall i, j | 0 <= i < j < |sessions| :: sessions[i] != sessions[j]
  }

  /** One filter run: what it selects, and what it records. */
  lemma {:induction false} PickEffect(candidates: seq<string>, k: nat, table: Table, now: nat, throttle: nat)
    requires k <= |candidates|
    requires InPast(table, now)
    ensures var p := Pick(candidates, k, table, now, throttle);
            && (forall s :: s in p.selected <==> s in candidates[..k] && !Recent(table, s, now, throttle))
            && (forall s :: s in p.table <==> s in table || s in p.selected)
            && (forall s | s in p.table :: p.table[s] == if s in p.selected then now else table[s])
            && (0 < throttle ==> Distinct(p.selected))
  {
    if k > 0 {
      PickEffect(candidates, k - 1, table, now, throttle);
      assert candidates[..k] == candidates[..k - 1] + [candidates[k - 1]];
    }
  }

  lemma UnprunedInPast(rounds: seq<Round>, n: nat, throttle: nat)
    requires Monotone(rounds) && n < |rounds|
    ensures InPast(ScannedUnpruned(rounds[..n], throttle).table, rounds[n].now)
  {
    PruningIsUnobservable(rounds[..n], throttle);
  }

  lemma {:induction false} UnprunedRemembers(rounds: seq<Round>, throttle: nat, s: string)
    requires Monotone(rounds)
    ensures Remembers(rounds, ScannedUnpruned(rounds, throttle), s)
  {
    if rounds != [] {
      var n := |rounds| - 1;
      var earlier, run := rounds[..n], ScannedUnpruned(rounds, throttle);
      var before := ScannedUnpruned(earlier, throttle);
      UnprunedRemembers(earlier, throttle, s);
      UnprunedInPast(rounds, n, throttle);
      PickEffect(rounds[n].candidates, |rounds[n].candidates|, before.table, rounds[n].now, throttle);
      assert forall i | 0 <= i < n :: earlier[i] == rounds[i] && run.published[i] == before.published[i];
      if s in run.published[n] {
        assert rounds[n].now == run.table[s];
      } else if s in run.table {
        var i :| 0 <= i < n && s in before.published[i] && earlier[i].now == before.table[s];
        assert s in run.published[i] && rounds[i].now == run.table[s];
      }
    }
  }

  /** What is published in a round depends on no later one. */
  lemma {:induction false} PrefixPublishes(rounds: seq<Round>, n: nat, throttle: nat)
    requires n <= |rounds|
    ensures ScannedUnpruned(rounds[..n], throttle).published == ScannedUnpruned(rounds, throttle).published[..n]
  {
    if n == |rounds| {
      assert rounds[..n] == rounds;
    } else {
      var earlier := rounds[..|rounds| - 1];
      PrefixPublishes(earlier, n, throttle);
      assert earlier[..n] == rounds[..n];
    }
  }

  /** What a round publishes is what the filter lets pass over the never-pruned table. */
  lemma PublishedBySelect(rounds: seq<Round>, throttle: nat, n: nat)
    requires Monotone(rounds) && n < |rounds|
    ensures var before := ScannedUnpruned(rounds[..n], throttle);
            && Scanned(rounds, throttle).published[..n] == before.published
            && Scanned(rounds, throttle).published[n] == Select(rounds[n], before.table, throttle).selected
  {
    PruningIsUnobservable(rounds, throttle);
    PrefixPublishes(rounds, n, throttle);
    PrefixPublishes(rounds, n + 1, throttle);
    assert rounds[..n + 1][..n] == rounds[..n];
    assert ScannedUnpruned(rounds[..n + 1], throttle).published[n] == ScannedUnpruned(rounds, throttle).published[n];
  }

  /** Exactly which requests are published, in terms of earlier requests alone: a session is requested in a round
      when it is a candidate there and no earlier request for it is less than the throttle old. */
  lemma PublishedExactlyWhenDue(rounds: seq<Round>, throttle: nat, n: nat, session: string)
    requires Monotone(rounds) && n < |rounds|
    ensures var published := Scanned(rounds, throttle).published;
            session in published[n] <==> session in rounds[n].candidates && Due(rounds, published, n, session, throttle)
  {
    var published := Scanned(rounds, throttle).published;
    var earlier, candidates, now := rounds[..n], rounds[n].candidates, rounds[n].now;
    var before := ScannedUnpruned(earlier, throttle);
    PublishedBySelect(rounds, throttle, n);
    UnprunedRemembers(earlier, throttle, session);
    UnprunedInPast(rounds, n, throttle);
    PickEffect(candidates, |candidates|, before.table, now, throttle);
    assert candidates[..|candidates|] == candidates;
    assert forall i | 0 <= i < n :: published[i] == before.published[i] && earlier[i] == rounds[i];
    if session in before.table {
      var i :| 0 <= i < n && session in before.published[i] && earlier[i].now == before.table[session];
      assert session in published[i] && rounds[i].now == before.table[session];
    }
  }

  /** No round requests the same session twice, unless there is no throttle at all. */
  lemma PublishedOnce(rounds: seq<Round>, throttle: nat, n: nat)
    requires Monotone(rounds) && n < |rounds| && 0 < throttle
    ensures Distinct(Scanned(rounds, throttle).published[n])
  {
    PublishedBySelect(rounds, throttle, n);
    UnprunedInPast(rounds, n, throttle);
    var round, before := rounds[n], ScannedUnpruned(rounds[..n], throttle).table;
    PickEffect(round.candidates, |round.candidates|, before, round.now, throttle);
  }

  /** Two requests for one session are at least the throttle apart. */
  lemma RequestsAreSpaced(rounds: seq<Round>, throttle: nat, i: nat, j: nat, session: string)
    requires Monotone(rounds) && i < j < |rounds|
    requires session in Scanned(rounds, throttle).published[i] && session in Scanned(rounds, throttle).published[j]
    ensures rounds[i].now + throttle <= rounds[j].now
  {
    PublishedExactlyWhenDue(rounds, throttle, j, session);
  }

  /** The table stays small: after a round it holds only that round's candidates and sessions inside their window. */
  lemma TableIsBounded(round: Round, table: Table, throttle: nat)
    requires InPast(table, round.now)
    ensures forall s | s in Throttled(round, table, throttle).table ::
              s in round.candidates || Recent(table, s, round.now, throttle)
  {
    PickEffect(round.candidates, |round.candidates|, Prune(table, round, throttle), round.now, throttle);
  }
}
