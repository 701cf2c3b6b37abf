/** Writing trust twice, and taking back exactly what was written. */
module TrustTheorems {
  import opened Common
  import opened Text
  import opened TrustModel

  // ---------- Key by key ----------

  /** What a targeted project becomes. */
  function Trusted(project: Option<Item>, inline: bool): Item {
    match project
    case None => NewTrustedProject(inline)
    case Some(p) =>
      if !p.IsTableLike() || Get(p.entries, TRUST).Some? then p
      else p.WithEntries(Put(p.entries, TRUST, TrustedValue(p.Inline?)))
  }

  /** What is left of a project after cleaning. */
  function Cleaned(project: Item): Option<Item> {
    if !HasMark(project) then Some(project)
    else if Drop(project.entries, TRUST) == [] then None
    else Some(project.WithEntries(Drop(project.entries, TRUST)))
  }

  /** The project has a trust level, or is missing one. */
  predicate Decided(project: Option<Item>) {
    project.Some? && project.value.IsTableLike() && Get(project.value.entries, TRUST).Some?
  }

  predicate Mergeable(es: Entries, key: string) {
    Get(es, key).Some? ==> Get(es, key).value.IsTableLike()
  }

  lemma NewIsDecided(inline: bool)
    ensures Decided(Some(NewTrustedProject(inline)))
  {
  }

  lemma TrustedIsDecided(p: Item, inline: bool)
    requires p.IsTableLike()
    ensures Decided(Some(Trusted(Some(p), inline)))
  {
    GetPut(p.entries, TRUST, TrustedValue(p.Inline?), TRUST);
  }

  lemma MergedAtKey(es: Entries, inline: bool, key: string, changed: bool)
    requires Distinct(es)
    ensures var r := MergeKey(Edit(es, changed), inline, key);
            && (r.Ok? <==> Mergeable(es, key))
            && (r.Ok? ==>
                  && Distinct(r.value.value)
                  && (forall k :: Get(r.value.value, k) == if k == key then Some(Trusted(Get(es, key), inline))
                      else Get(es, k))
                  && r.value.changed == (changed || !Decided(Get(es, key)))
                  && (Decided(Get(es, key)) ==> r.value.value == es))
  {
    hide Distinct, NewTrustedProject, TrustedValue;
    var item := Trusted(Get(es, key), inline);
    forall k ensures Get(Put(es, key, item), k) == (if k == key then Some(item) else Get(es, k))
        && Distinct(Put(es, key, item)) {
      GetPut(es, key, item, k);
    }
  }

  /** Merging goes key by key: it fails exactly if a targeted project is not a table, leaves projects with a trust level
      and those that are not targeted as they are, and reports whether there was a targeted one without. */
  lemma {:induction false} MergedByKey(es: Entries, inline: bool, keys: seq<string>, n: nat)
    requires Distinct(es) && n <= |keys|
    ensures MergeKeys(es, inline, keys, n).Ok?
       <==> forall k | k in keys[..n] :: Mergeable(es, k)
    ensures var r := MergeKeys(es, inline, keys, n);
            r.Ok? ==>
              && Distinct(r.value.value)
              && (forall k :: Get(r.value.value, k) == if k in keys[..n] then Some(Trusted(Get(es, k), inline))
                  else Get(es, k))
              && (r.value.changed <==> exists k :: k in keys[..n] && !Decided(Get(es, k)))
              && (!r.value.changed ==> r.value.value == es)
  {
    hide Distinct, NewTrustedProject, TrustedValue;
    if n > 0 {
      MergedByKey(es, inline, keys, n - 1);
      var before, key := MergeKeys(es, inline, keys, n - 1), keys[n - 1];
      assert keys[..n] == keys[..n - 1] + [key];
      assert forall k :: k in keys[..n] <==> k in keys[..n - 1] || k == key;
      if before.Ok? {
        var r := MergeKey(before.value, inline, key);
        assert before.value == Edit(before.value.value, before.value.changed);
        assert MergeKeys(es, inline, keys, n) == r;
        MergedAtKey(before.value.value, inline, key, before.value.changed);
        NewIsDecided(inline);
        if Get(es, key).Some? && Get(es, key).value.IsTableLike() { TrustedIsDecided(Get(es, key).value, inline); }
        assert r.Ok? <==> Mergeable(es, key);
        assert key in keys[..n];
      } else {
        var k :| k in keys[..n - 1] && !Mergeable(es, k);
        assert k in keys[..n];
      }
    }
  }

  // ---------- Cleaning entry by entry ----------

  function CleanEntries(es: Entries): Entries {
    if es == [] then []
    else (if Cleaned(es[0].1).Some? then [(es[0].0, Cleaned(es[0].1).value)] else []) + CleanEntries(es[1..])
  }

  predicate NoMarks(es: Entries) {
    forall i | 0 <= i < |es| :: !HasMark(es[i].1)
  }

  lemma {:induction false} GetConcat(a: Entries, b: Entries, key: string)
    ensures Get(a + b, key) == if Get(a, key).Some? then Get(a, key) else Get(b, key)
    decreases |a|
  {
    if a == [] { assert a + b == b; } else { ConcatHead(a, b); GetConcat(a[1..], b, key); }
  }

  lemma HeadFirst(a: Entries, b: Entries, c: Entries)
    requires a != []
    ensures a + b + c == [a[0]] + (a[1..] + b + c) && a + c == [a[0]] + (a[1..] + c)
  {
  }

  lemma FirstIsOther(e: (string, Item), rest: Entries, key: string, q: Item)
    requires e.0 != key
    ensures Get([e] + rest, key) == Get(rest, key)
    ensures Put([e] + rest, key, q) == [e] + Put(rest, key, q)
    ensures Drop([e] + rest, key) == [e] + Drop(rest, key)
  {
    ConcatHead([e], rest);
  }

  /** Changing the first entry after a prefix that has no such key. */
  lemma {:induction false} ChangeAt(a: Entries, key: string, p: Item, q: Item, b: Entries)
    requires Get(a, key).None?
    ensures Get(a + [(key, p)] + b, key) == Some(p)
    ensures Put(a + [(key, p)] + b, key, q) == a + [(key, q)] + b
    ensures Drop(a + [(key, p)] + b, key) == a + b
    decreases |a|
  {
    if a == [] {
      assert a + [(key, p)] + b == [(key, p)] + b && a + b == b;
      ConcatHead([(key, p)], b);
      assert [(key, q)] + b == a + [(key, q)] + b;
    } else {
      assert a[0].0 != key && Get(a[1..], key).None?;
      hide *;
      ChangeAt(a[1..], key, p, q, b);
      FirstIsOther(a[0], a[1..] + [(key, p)] + b, key, q);
      HeadFirst(a, [(key, p)], b);
      HeadFirst(a, [(key, q)], b);
    }
  }

  lemma {:induction false} CleanEntriesConcat(a: Entries, b: Entries)
    ensures CleanEntries(a + b) == CleanEntries(a) + CleanEntries(b)
    decreases |a|
  {
    hide Cleaned;
    if a == [] {
      assert a + b == b;
    } else {
      ConcatHead(a, b);
      CleanEntriesConcat(a[1..], b);
      var first := if Cleaned(a[0].1).Some? then [(a[0].0, Cleaned(a[0].1).value)] else [];
      ConcatAssociates(first, CleanEntries(a[1..]), CleanEntries(b));
    }
  }

  lemma CleanSingle(key: string, p: Item)
    ensures CleanEntries([(key, p)]) == if Cleaned(p).Some? then [(key, Cleaned(p).value)] else []
  {
    hide Cleaned;
    assert CleanEntries([]) == [];
  }

  lemma {:induction false} CleanedKeys(es: Entries, k: string)
    requires Get(es, k).None?
    ensures Get(CleanEntries(es), k).None?
    decreases |es|
  {
    hide Cleaned;
    if es != [] {
      CleanedKeys(es[1..], k);
      CleanEntriesConcat([es[0]], es[1..]);
      assert [es[0]] + es[1..] == es;
      CleanSingle(es[0].0, es[0].1);
      GetConcat(CleanEntries([es[0]]), CleanEntries(es[1..]), k);
    }
  }

  lemma {:induction false} KeysAre(es: Entries, i: nat)
    requires i < |es|
    ensures |Keys(es)| == |es| && Keys(es)[i] == es[i].0
    decreases |es|
  {
    if i > 0 { KeysAre(es[1..], i - 1); } else if |es| > 1 { KeysAre(es[1..], 0); }
  }

  lemma {:induction false} GetSome(es: Entries, i: nat)
    requires i < |es|
    ensures Get(es, es[i].0).Some?
    ensures Distinct(es) ==> Get(es, es[i].0) == Some(es[i].1)
    decreases |es|
  {
    if i > 0 { GetSome(es[1..], i - 1); }
  }

  lemma {:induction false} DistinctBefore(es: Entries, i: nat)
    requires Distinct(es) && i < |es|
    ensures Get(es[..i], es[i].0).None?
    decreases |es|
  {
    if i > 0 {
      DistinctBefore(es[1..], i - 1);
      assert es[..i][1..] == es[1..][..i - 1];
      GetSome(es[1..], i - 1);
    }
  }

  lemma CleanNothing()
    ensures CleanEntries([]) == []
  {
  }

  lemma CleanAt(a: Entries, key: string, p: Item, b: Entries, changed: bool)
    requires Get(a, key).None?
    ensures CleanKey(Edit(a + [(key, p)] + b, changed), key)
         == Edit(a + (if Cleaned(p).Some? then [(key, Cleaned(p).value)] else []) + b, changed || HasMark(p))
  {
    hide Get, Put, Drop, HasMark;
    ChangeAt(a, key, p, Cleaned(p).GetOr(p), b);
    assert a + [] + b == a + b;
  }

  /** The loop over the keys cleans entry by entry and reports whether a mark was found. */
  lemma {:induction false} CleanLoop(es: Entries, n: nat)
    requires Distinct(es) && n <= |es| && |Keys(es)| == |es|
    ensures CleanKeys(es, Keys(es), n) == Edit(CleanEntries(es[..n]) + es[n..], !NoMarks(es[..n]))
  {
    hide Cleaned, HasMark, Distinct, Get, Keys, CleanEntries;
    if n == 0 {
      CleanNothing();
      assert CleanEntries([]) + es[0..] == es && es[..0] == [];
    } else {
      CleanLoop(es, n - 1);
      KeysAre(es, n - 1);
      var (key, p) := es[n - 1];
      var a, b := CleanEntries(es[..n - 1]), es[n..];
      assert a + es[n - 1..] == a + [(key, p)] + b;
      assert es[..n] == es[..n - 1] + [(key, p)];
      assert NoMarks(es[..n]) <==> NoMarks(es[..n - 1]) && !HasMark(p) by {
        assert forall i | 0 <= i < n - 1 :: es[..n][i] == es[..n - 1][i];
        assert es[..n][n - 1].1 == p;
      }
      DistinctBefore(es, n - 1);
      CleanedKeys(es[..n - 1], key);
      CleanEntriesConcat(es[..n - 1], [(key, p)]);
      CleanSingle(key, p);
      CleanAt(a, key, p, b, !NoMarks(es[..n - 1]));
    }
  }

  lemma {:induction false} KeysLength(es: Entries)
    ensures |Keys(es)| == |es|
    decreases |es|
  {
    if es != [] { KeysLength(es[1..]); }
  }

  lemma CleanedAll(es: Entries)
    requires Distinct(es)
    ensures CleanKeys(es, Keys(es), |Keys(es)|) == Edit(CleanEntries(es), !NoMarks(es))
  {
    hide CleanKeys, CleanEntries, NoMarks, Distinct;
    KeysLength(es);
    CleanLoop(es, |es|);
    assert es[..|es|] == es && CleanEntries(es) + es[|es|..] == CleanEntries(es);
  }

  lemma {:induction false} CleanedByKey(es: Entries, key: string)
    requires Distinct(es)
    ensures Get(CleanEntries(es), key) == if Get(es, key).Some? then Cleaned(Get(es, key).value) else None
    decreases |es|
  {
    hide Cleaned;
    if es != [] {
      CleanedByKey(es[1..], key);
      if es[0].0 == key { CleanedKeys(es[1..], key); }
      CleanEntriesConcat([es[0]], es[1..]);
      assert [es[0]] + es[1..] == es;
      CleanSingle(es[0].0, es[0].1);
      GetConcat(CleanEntries([es[0]]), CleanEntries(es[1..]), key);
    }
  }

  lemma {:induction false} CleanEntriesPut(es: Entries, key: string, item: Item)
    requires Cleaned(item) == if Get(es, key).Some? then Cleaned(Get(es, key).value) else None
    ensures CleanEntries(Put(es, key, item)) == CleanEntries(es)
    decreases |es|
  {
    hide Cleaned;
    if es == [] {
      CleanSingle(key, item);
    } else if es[0].0 == key {
      ConcatHead([(key, item)], es[1..]);
    } else {
      CleanEntriesPut(es[1..], key, item);
      ConcatHead([es[0]], Put(es[1..], key, item));
    }
  }

  lemma {:induction false} CleanEntriesFix(es: Entries)
    requires NoMarks(es)
    ensures CleanEntries(es) == es
    decreases |es|
  {
    if es != [] {
      assert forall i | 0 <= i < |es| - 1 :: es[1..][i] == es[i + 1];
      CleanEntriesFix(es[1..]);
      assert !HasMark(es[0].1);
    }
  }

  // ---------- When cleaning takes back exactly what merging wrote ----------

  /** What merging does to this project, cleaning undoes: it adds nothing, or it adds a marked level to a table that
      holds something else, or to a new table of its own. */
  predicate Reversible(project: Option<Item>, inline: bool) {
    match project
    case None => !inline
    case Some(p) => p.IsTableLike() && (Get(p.entries, TRUST).Some? || (p.Table? && p.entries != []))
  }

  lemma MarksAreMarks()
    ensures Contains(" # " + MARKER, MARKER) && !Contains("", MARKER)
  {
    assert OccursAt(" # " + MARKER, MARKER, 3);
    assert forall i: nat :: !OccursAt("", MARKER, i);
  }

  lemma {:induction false} DropShortens(es: Entries, key: string)
    ensures |Drop(es, key)| == if Get(es, key).Some? then |es| - 1 else |es|
    decreases |es|
  {
    if es != [] { DropShortens(es[1..], key); }
  }

  lemma MarkedChanges(p: Item)
    requires HasMark(p)
    ensures Cleaned(p) != Some(p)
  {
    hide Drop, IsMarked;
    DropShortens(p.entries, TRUST);
  }

  lemma NewReverses(inline: bool)
    ensures Cleaned(NewTrustedProject(inline)) == None <==> !inline
  {
    hide Contains;
    MarksAreMarks();
    var p := NewTrustedProject(inline);
    assert p.entries == [(TRUST, TrustedValue(inline))];
    assert Drop(p.entries, TRUST) == [];
  }

  /** A project without a mark comes through merging and cleaning unchanged exactly if it is reversible. */
  lemma ProjectReverses(project: Option<Item>, inline: bool)
    requires project.Some? ==> project.value.IsTableLike() && !HasMark(project.value)
    ensures Cleaned(Trusted(project, inline)) == project <==> Reversible(project, inline)
  {
    MarksAreMarks();
    if project.None? {
      NewReverses(inline);
    } else {
      var p := project.value;
      if Get(p.entries, TRUST).None? {
        GetPut(p.entries, TRUST, TrustedValue(p.Inline?), TRUST);
        DropPut(p.entries, TRUST, TrustedValue(p.Inline?));
      }
    }
  }

  lemma TrustedMark(p: Item, inline: bool)
    requires HasMark(p)
    ensures Trusted(Some(p), inline) == p
  {
  }

  lemma MergedIsMergeable(before: Edit<Entries>, inline: bool, key: string)
    requires MergeKey(before, inline, key).Ok?
    ensures Mergeable(before.value, key)
  {
  }

  lemma AlreadyDecided(es: Entries, inline: bool, key: string)
    requires Reversible(Get(es, key), inline)
    ensures Decided(Some(Trusted(Get(es, key), inline)))
  {
    NewIsDecided(inline);
    if Get(es, key).Some? { TrustedIsDecided(Get(es, key).value, inline); }
  }

  lemma MergedAtDecided(before: Edit<Entries>, inline: bool, key: string)
    requires Decided(Get(before.value, key))
    ensures MergeKey(before, inline, key) == Ok(before)
  {
  }

  lemma {:induction false} UnmarkedAt(es: Entries, key: string)
    requires NoMarks(es)
    ensures Get(es, key).Some? ==> !HasMark(Get(es, key).value)
    decreases |es|
  {
    hide HasMark;
    if es != [] && es[0].0 != key {
      assert forall i | 0 <= i < |es| - 1 :: es[1..][i] == es[i + 1];
      UnmarkedAt(es[1..], key);
    }
  }

  lemma MergedAtOther(before: Edit<Entries>, inline: bool, key: string)
    requires MergeKey(before, inline, key).Ok?
    requires Cleaned(Trusted(Get(before.value, key), inline)) == Get(before.value, key)
    requires Get(before.value, key).Some? ==> !HasMark(Get(before.value, key).value)
    ensures CleanEntries(MergeKey(before, inline, key).value.value) == CleanEntries(before.value)
  {
    hide CleanEntries, NewTrustedProject, TrustedValue, HasMark, Put;
    if !Decided(Get(before.value, key)) {
      CleanEntriesPut(before.value, key, Trusted(Get(before.value, key), inline));
    }
  }

  lemma {:induction false} MergeThenClean(es: Entries, inline: bool, keys: seq<string>, n: nat)
    requires Distinct(es) && n <= |keys| && NoMarks(es) && MergeKeys(es, inline, keys, n).Ok?
    requires forall k | k in keys[..n] :: Reversible(Get(es, k), inline)
    ensures CleanEntries(MergeKeys(es, inline, keys, n).value.value) == es
  {
    hide Cleaned, HasMark, Reversible, Trusted, Distinct, CleanEntries, Decided, Get, NoMarks, MergeKey;
    if n == 0 {
      CleanEntriesFix(es);
    } else {
      var before, key := MergeKeys(es, inline, keys, n - 1), keys[n - 1];
      assert keys[..n] == keys[..n - 1] + [key];
      MergeThenClean(es, inline, keys, n - 1);
      MergedByKey(es, inline, keys, n - 1);
      if key in keys[..n - 1] {
        AlreadyDecided(es, inline, key);
        MergedAtDecided(before.value, inline, key);
      } else {
        UnmarkedAt(es, key);
        MergedIsMergeable(before.value, inline, key);
        ProjectReverses(Get(es, key), inline);
        MergedAtOther(before.value, inline, key);
      }
    }
  }

  /** Cleaning gives back the projects as they were exactly if none bore a mark and all targeted ones are reversible. */
  lemma ProjectsReverse(es: Entries, inline: bool, keys: seq<string>)
    requires Distinct(es) && MergeKeys(es, inline, keys, |keys|).Ok?
    ensures CleanEntries(MergeKeys(es, inline, keys, |keys|).value.value) == es
       <==> NoMarks(es) && forall k | k in keys :: Reversible(Get(es, k), inline)
  {
    hide Cleaned, HasMark, Reversible, Trusted, Distinct, CleanEntries, MergeKeys, Get;
    var merged := MergeKeys(es, inline, keys, |keys|).value.value;
    assert keys[..|keys|] == keys;
    MergedByKey(es, inline, keys, |keys|);
    if NoMarks(es) && forall k | k in keys :: Reversible(Get(es, k), inline) {
      MergeThenClean(es, inline, keys, |keys|);
    } else if CleanEntries(merged) == es {
      forall i | 0 <= i < |es| ensures !HasMark(es[i].1) {
        GetSome(es, i);
        CleanedByKey(merged, es[i].0);
        if HasMark(es[i].1) {
          TrustedMark(es[i].1, inline);
          MarkedChanges(es[i].1);
        }
      }
      forall k | k in keys ensures Reversible(Get(es, k), inline) {
        assert Mergeable(es, k);
        UnmarkedAt(es, k);
        CleanedByKey(merged, k);
        ProjectReverses(Get(es, k), inline);
      }
    }
  }

  // ---------- Documents ----------

  /** A document as it reads back from a file. */
  ghost predicate Readable(document: Entries) {
    Distinct(document) && Saved(document) == document
    && (Projects(document).IsTableLike() ==> Distinct(Projects(document).entries))
  }

  ghost predicate Untouched(document: Entries, targets: seq<string>) {
    var projects := Projects(document);
    projects.IsTableLike() ==>
      NoMarks(projects.entries) && forall k | k in targets :: Reversible(Get(projects.entries, k), projects.Inline?)
  }

  /** The document with other projects, as it is saved. */
  function WithProjects(document: Entries, es: Entries): Entries
    requires Projects(document).IsTableLike()
  {
    Saved(Put(document, PROJECTS, Projects(document).WithEntries(es)))
  }

  lemma SameProjects(document: Entries, es: Entries)
    requires Readable(document) && Projects(document).IsTableLike()
    ensures WithProjects(document, es) == document <==> es == Projects(document).entries
  {
    hide Put, Drop, Distinct;
    var item := Projects(document).WithEntries(es);
    GetPut(document, PROJECTS, item, PROJECTS);
    PutTwice(document, PROJECTS, item, item);
    if Get(document, PROJECTS).None? { DropPut(document, PROJECTS, item); }
    GetDrop(Put(document, PROJECTS, item), PROJECTS, PROJECTS);
  }

  lemma StaleServerGoes(document: Entries, changed: bool, oldUrl: string -> bool, original: Entries)
    requires Distinct(document) && HasStaleServer(oldUrl, document) && Get(document, SERVERS) == Get(original, SERVERS)
    ensures Saved(CleanServers(oldUrl, Edit(document, changed)).value) != original
  {
    hide IsStale, Put, Drop;
    assert PROJECTS[0] != SERVERS[0];
    var servers := Get(document, SERVERS).value;
    var item := servers.WithEntries(Drop(servers.entries, CCPANES));
    DropShortens(servers.entries, CCPANES);
    GetPut(document, SERVERS, item, SERVERS);
    GetDrop(Put(document, SERVERS, item), PROJECTS, SERVERS);
  }

  /** What cleaning saves, when it finds something; otherwise the file is what it would have saved. */
  lemma CleanupSaves(oldUrl: string -> bool, document: Entries)
    requires Readable(document)
    ensures var edit := CleanServers(oldUrl, CleanProjects(document));
            Cleanup(oldUrl, Some(document)).file == Some(Saved(edit.value))
                && (!edit.changed ==> edit.value == document)
  {
    hide CleanKeys, Keys, Put, Drop, HasStaleServer;
    var projects := Get(document, PROJECTS);
    if projects.Some? && projects.value.IsTableLike() {
      var es := projects.value.entries;
      CleanedAll(es);
      if NoMarks(es) { CleanEntriesFix(es); }
      PutTwice(document, PROJECTS, projects.value, projects.value);
    }
  }

  lemma CleanedProjects(document: Entries)
    requires Readable(document) && Projects(document).IsTableLike()
    ensures var cleaned := CleanProjects(document).value;
            && Saved(cleaned) == WithProjects(document, CleanEntries(Projects(document).entries))
            && Distinct(cleaned) && Get(cleaned, SERVERS) == Get(document, SERVERS)
  {
    hide CleanKeys, Keys, Put, Drop, Distinct;
    var projects := Projects(document);
    if Get(document, PROJECTS).None? {
      assert projects.entries == [] && CleanEntries([]) == [];
      SameProjects(document, []);
    } else {
      CleanedAll(projects.entries);
      assert PROJECTS[0] != SERVERS[0];
      GetPut(document, PROJECTS, projects.WithEntries(CleanEntries(projects.entries)), SERVERS);
    }
  }

  /** The document a merge that changed something leaves in the file. */
  lemma Prewritten(document: Entries, keys: seq<string>)
    requires Readable(document) && Merge(document, keys).Ok? && Merge(document, keys).value.changed
    ensures Projects(document).IsTableLike()
    ensures var es := MergeKeys(Projects(document).entries, Projects(document).Inline?, keys, |keys|).value.value;
            var written := Saved(Merge(document, keys).value.value);
            && Readable(written) && Get(written, PROJECTS) == Some(Projects(document).WithEntries(es))
            && (forall rest :: WithProjects(written, rest) == WithProjects(document, rest))
            && (forall k | k != PROJECTS :: Get(written, k) == Get(document, k))
  {
    hide Put, Drop, Distinct, MergeKeys;
    var projects := Projects(document);
    MergedByKey(projects.entries, projects.Inline?, keys, |keys|);
    assert keys[..|keys|] == keys;
    var es := MergeKeys(projects.entries, projects.Inline?, keys, |keys|).value.value;
    var k :| k in keys && !Decided(Get(projects.entries, k));
    assert Get(es, k).Some?;
    var item := projects.WithEntries(es);
    GetPut(document, PROJECTS, item, PROJECTS);
    forall rest ensures WithProjects(Put(document, PROJECTS, item), rest) == WithProjects(document, rest) {
      PutTwice(document, PROJECTS, item, projects.WithEntries(rest));
    }
    forall k | k != PROJECTS ensures Get(Put(document, PROJECTS, item), k) == Get(document, k) {
      GetPut(document, PROJECTS, item, k);
    }
  }

  lemma ProjectsDistinct(document: Entries)
    requires Readable(document) && Projects(document).IsTableLike()
    ensures Distinct(Projects(document).entries)
  {
  }

  lemma WrittenProjects(document: Entries, targets: seq<string>)
    requires Readable(document) && Projects(document).IsTableLike() && (targets == [] || Merge(document, targets).Ok?)
    ensures MergeKeys(Projects(document).entries, Projects(document).Inline?, targets, |targets|).Ok?
    ensures var es := MergeKeys(Projects(document).entries, Projects(document).Inline?, targets, |targets|).value.value;
            var changed := targets != [] && Merge(document, targets).value.changed;
            var written := if changed then Saved(Merge(document, targets).value.value) else document;
            && Readable(written) && Projects(written).IsTableLike() && Projects(written).entries == es
            && (forall rest :: WithProjects(written, rest) == WithProjects(document, rest))
            && Get(written, SERVERS) == Get(document, SERVERS)
  {
    hide Put, Drop, Distinct, WithProjects;
    assert PROJECTS[0] != SERVERS[0];
    if targets != [] {
      MergedByKey(Projects(document).entries, Projects(document).Inline?, targets, |targets|);
      if Merge(document, targets).value.changed { Prewritten(document, targets); }
    }
  }

  lemma CleanedToProjects(oldUrl: string -> bool, document: Entries, written: Entries, rest: Entries)
    requires Readable(document) && Projects(document).IsTableLike() && Readable(written)
         && Projects(written).IsTableLike()
    requires rest == CleanEntries(Projects(written).entries)
    requires WithProjects(written, rest) == WithProjects(document, rest)
         && Get(written, SERVERS) == Get(document, SERVERS)
    ensures Cleanup(oldUrl, Some(written)).file == Some(document)
       <==> WithProjects(document, rest) == document && !HasStaleServer(oldUrl, document)
  {
    hide Put, Drop, Distinct, CleanEntries, Readable, Saved, WithProjects, CleanProjects, IsStale;
    CleanupSaves(oldUrl, written);
    CleanedProjects(written);
    var cleaned := CleanProjects(written);
    if HasStaleServer(oldUrl, document) {
      StaleServerGoes(cleaned.value, cleaned.changed, oldUrl, document);
    }
  }

  lemma NothingToUndo(oldUrl: string -> bool, document: Entries)
    requires Readable(document) && !Projects(document).IsTableLike()
    ensures Cleanup(oldUrl, Some(document)).file == Some(document) <==> !HasStaleServer(oldUrl, document)
  {
    hide Put, Drop, HasStaleServer, IsStale;
    CleanupSaves(oldUrl, document);
    if HasStaleServer(oldUrl, document) {
      StaleServerGoes(document, false, oldUrl, document);
    }
  }

  /** Taking trust back restores the file exactly if nothing in it was marked, no stale server was registered, and every
      targeted project is reversible. */
  lemma CleanupUndoesPrewrite(oldUrl: string -> bool, document: Entries, keys: seq<string>, yolo: bool)
    requires Readable(document) && Prewrite(Some(document), keys, yolo).result.Ok?
    ensures Cleanup(oldUrl, Prewrite(Some(document), keys, yolo).file).file == Some(document)
       <==> Untouched(document, Targets(keys, yolo)) && !HasStaleServer(oldUrl, document)
  {
    hide Put, Drop, Distinct, MergeKeys, CleanEntries, HasStaleServer, Readable, Saved, WithProjects, Targets;
    hide CleanServers, Reversible;
    var targets, projects := Targets(keys, yolo), Projects(document);
    var written := Prewrite(Some(document), keys, yolo).file.value;
    if projects.IsTableLike() {
      WrittenProjects(document, targets);
      ProjectsDistinct(document);
      ProjectsReverse(projects.entries, projects.Inline?, targets);
      var rest := CleanEntries(MergeKeys(projects.entries, projects.Inline?, targets, |targets|).value.value);
      SameProjects(document, rest);
      CleanedToProjects(oldUrl, document, written, rest);
    } else {
      assert written == document;
      NothingToUndo(oldUrl, document);
    }
  }

  /** A document with an inline project. */
  const INLINE_PROJECT := Inline([("note", Value(Str("n"), ""))], "")
  const INLINE_DOCUMENT: Entries := [(PROJECTS, Table([("/p", INLINE_PROJECT)], false))]

  lemma OneTarget()
    ensures Targets(["/p"], true) == ["/p"]
  {
    assert ["/p"][..0] == [] && Targets([], true) == [];
  }

  lemma InlineDocumentReads()
    ensures Readable(INLINE_DOCUMENT) && Projects(INLINE_DOCUMENT).IsTableLike()
    ensures Projects(INLINE_DOCUMENT).entries == [("/p", INLINE_PROJECT)]
    ensures Get([("/p", INLINE_PROJECT)], "/p") == Some(INLINE_PROJECT) && Get(INLINE_PROJECT.entries, TRUST).None?
  {
    assert "note"[0] != TRUST[0];
  }

  /** The condition is needed: trust written into an inline project bears no mark, so cleaning leaves it there. */
  lemma InlineTrustStays(oldUrl: string -> bool)
    ensures Prewrite(Some(INLINE_DOCUMENT), ["/p"], true).result.Ok?
    ensures Cleanup(oldUrl, Prewrite(Some(INLINE_DOCUMENT), ["/p"], true).file).file != Some(INLINE_DOCUMENT)
  {
    hide Readable, Saved, Put;
    OneTarget();
    InlineDocumentReads();
    MergedByKey([("/p", INLINE_PROJECT)], false, ["/p"], 1);
    assert ["/p"][..1] == ["/p"];
    assert !Reversible(Get([("/p", INLINE_PROJECT)], "/p"), false);
    CleanupUndoesPrewrite(oldUrl, INLINE_DOCUMENT, ["/p"], true);
  }

  // ---------- What writing trust keeps and achieves ----------

  function ProjectOf(document: Entries, key: string): Option<Item> {
    if Projects(document).IsTableLike() then Get(Projects(document).entries, key) else None
  }

  /** A project that had no level is trusted, marked where a comment can stand, and keeps what else it had. */
  ghost predicate NowTrusted(before: Option<Item>, after: Option<Item>) {
    && after.Some? && after.value.IsTableLike()
    && (if before.Some? && before.value.IsTableLike() then after.value == before.value.WithEntries(after.value.entries)
        else after.value.Inline? || !after.value.isImplicit)
    && Get(after.value.entries, "trust_level")
         == Some(Value(Str("trusted"), if after.value.Inline? then "" else " # managed by cc-panes"))
    && forall other | other != "trust_level" ::
         Get(after.value.entries, other)
           == if before.Some? && before.value.IsTableLike() then Get(before.value.entries, other) else None
  }

  lemma GetFromOne(key: string, item: Item, other: string)
    ensures Get([(key, item)], other) == if other == key then Some(item) else None
  {
    assert [(key, item)][1..] == [];
  }

  lemma OneIsTrusted(project: Item, value: Item)
    requires project.IsTableLike() && project.entries == [("trust_level", value)]
    requires project.Inline? || !project.isImplicit
    requires value == Value(Str("trusted"), if project.Inline? then "" else " # managed by cc-panes")
    ensures NowTrusted(None, Some(project))
  {
    hide Get;
    forall other: string
      ensures Get([("trust_level", value)], other) == if other == "trust_level" then Some(value) else None
    {
      GetFromOne("trust_level", value, other);
    }
  }

  lemma MarkSpelled()
    ensures " # " + MARKER == " # managed by cc-panes"
  {
  }

  lemma NewIsTrusted(inline: bool)
    ensures NowTrusted(None, Some(NewTrustedProject(inline)))
  {
    MarkSpelled();
    hide Get, NowTrusted, MARKER;
    if inline {
      OneIsTrusted(NewTrustedProject(true), Value(Str("trusted"), ""));
    } else {
      OneIsTrusted(NewTrustedProject(false), Value(Str("trusted"), " # managed by cc-panes"));
    }
  }

  lemma OldIsTrusted(p: Item, value: Item)
    requires p.IsTableLike() && Get(p.entries, TRUST).None?
    requires value == Value(Str("trusted"), if p.Inline? then "" else " # managed by cc-panes")
    ensures NowTrusted(Some(p), Some(p.WithEntries(Put(p.entries, TRUST, value))))
  {
    hide Put, Get;
    var es := Put(p.entries, TRUST, value);
    assert p.WithEntries(es).entries == es && p.WithEntries(es).Inline? == p.Inline?;
    assert p.WithEntries(es) == p.WithEntries(p.WithEntries(es).entries);
    forall other: string ensures Get(es, other) == if other == TRUST then Some(value) else Get(p.entries, other) {
      GetPut(p.entries, TRUST, value, other);
    }
  }

  lemma TrustedNow(project: Option<Item>, inline: bool)
    requires project.Some? ==> project.value.IsTableLike() && Get(project.value.entries, TRUST).None?
    ensures NowTrusted(project, Some(Trusted(project, inline)))
  {
    MarkSpelled();
    hide NowTrusted, MARKER, Put, Get, NewTrustedProject;
    match project
    case None =>
      NewIsTrusted(inline);
    case Some(p) =>
      OldIsTrusted(p, TrustedValue(p.Inline?));
  }

  /** Every targeted project has a trust level afterwards, and is trusted if it had none; one that had a level, and
      everything that is not targeted, is as before; and the call reports whether it changed the file. */
  lemma PrewriteDecides(document: Entries, keys: seq<string>, yolo: bool)
    requires Readable(document) && Prewrite(Some(document), keys, yolo).result.Ok?
    ensures var written := Prewrite(Some(document), keys, yolo).file.value;
            && Readable(written)
            && (forall k | k in Targets(keys, yolo) :: Decided(ProjectOf(written, k)))
            && (forall k | k in Targets(keys, yolo) && !Decided(ProjectOf(document, k)) ::
                  NowTrusted(ProjectOf(document, k), ProjectOf(written, k)))
            && (forall k | k !in Targets(keys, yolo) || Decided(ProjectOf(document, k)) ::
                  ProjectOf(written, k) == ProjectOf(document, k))
            && (forall k | k != PROJECTS :: Get(written, k) == Get(document, k))
            && Prewrite(Some(document), keys, yolo).result == Ok(written != document)
  {
    hide Put, Drop, Distinct, MergeKeys, Targets, Saved, NewTrustedProject, TrustedValue, NowTrusted;
    var targets, projects := Targets(keys, yolo), Projects(document);
    if targets != [] {
      MergedByKey(projects.entries, projects.Inline?, targets, |targets|);
      assert targets[..|targets|] == targets;
      forall k | k in targets ensures Decided(Some(Trusted(Get(projects.entries, k), projects.Inline?))) {
        assert Mergeable(projects.entries, k);
        NewIsDecided(projects.Inline?);
        if Get(projects.entries, k).Some? { TrustedIsDecided(Get(projects.entries, k).value, projects.Inline?); }
      }
      forall k | k in targets && !Decided(Get(projects.entries, k))
        ensures NowTrusted(Get(projects.entries, k), Some(Trusted(Get(projects.entries, k), projects.Inline?)))
      {
        assert Mergeable(projects.entries, k);
        TrustedNow(Get(projects.entries, k), projects.Inline?);
      }
      if Merge(document, targets).value.changed {
        Prewritten(document, targets);
        var k :| k in targets && !Decided(Get(projects.entries, k));
        assert Decided(ProjectOf(Saved(Merge(document, targets).value.value), k));
      }
    }
  }

  lemma DecidedAlready(document: Entries, targets: seq<string>)
    requires Readable(document) && targets != [] && forall k | k in targets :: Decided(ProjectOf(document, k))
    ensures Merge(document, targets).Ok? && !Merge(document, targets).value.changed
  {
    hide Put, Distinct, MergeKeys;
    var projects := Projects(document);
    assert Decided(ProjectOf(document, targets[0]));
    MergedByKey(projects.entries, projects.Inline?, targets, |targets|);
    assert targets[..|targets|] == targets;
    forall k | k in targets ensures Mergeable(projects.entries, k) && Decided(Get(projects.entries, k)) {
      assert Decided(ProjectOf(document, k));
    }
  }

  /** Writing trust again finds nothing to write. */
  lemma PrewriteIsIdempotent(file: File, keys: seq<string>, yolo: bool)
    requires Readable(file.GetOr([])) && Prewrite(file, keys, yolo).result.Ok?
    ensures var s := Prewrite(file, keys, yolo); Prewrite(s.file, keys, yolo) == Step(s.file, Ok(false))
  {
    hide Put, Drop, Distinct, MergeKeys, Targets, Saved, Readable;
    var targets := Targets(keys, yolo);
    if targets != [] {
      var document := file.GetOr([]);
      assert Prewrite(Some(document), keys, yolo).result == Prewrite(file, keys, yolo).result;
      PrewriteDecides(document, keys, yolo);
      var written := Prewrite(Some(document), keys, yolo).file.value;
      DecidedAlready(written, targets);
      if Prewrite(file, keys, yolo).result == Ok(false) { assert written == document; }
    }
  }

  // ---------- What cleaning keeps ----------

  predicate ItemsDistinct(es: Entries) {
    forall i | 0 <= i < |es| :: es[i].1.IsTableLike() ==> Distinct(es[i].1.entries)
  }

  lemma CleanedIsUnmarked(p: Item)
    requires p.IsTableLike() ==> Distinct(p.entries)
    ensures Cleaned(p).Some? ==> !HasMark(Cleaned(p).value)
  {
    hide IsMarked, Drop, Distinct;
    if HasMark(p) { GetDrop(p.entries, TRUST, TRUST); }
  }

  lemma {:induction false} CleanEntriesUnmarked(es: Entries)
    requires ItemsDistinct(es)
    ensures NoMarks(CleanEntries(es))
    decreases |es|
  {
    hide Cleaned, HasMark;
    if es != [] {
      assert forall i | 0 <= i < |es| - 1 :: es[1..][i] == es[i + 1];
      CleanEntriesUnmarked(es[1..]);
      CleanedIsUnmarked(es[0].1);
      var rest := CleanEntries(es[1..]);
      if Cleaned(es[0].1).Some? {
        var head := [(es[0].0, Cleaned(es[0].1).value)];
        assert forall i | 0 < i <= |rest| :: (head + rest)[i] == rest[i - 1];
      } else {
        assert [] + rest == rest;
      }
    }
  }

  lemma CleanEntriesUnmarkedIf(es: Entries)
    ensures ItemsDistinct(es) ==> NoMarks(CleanEntries(es))
  {
    if ItemsDistinct(es) { CleanEntriesUnmarked(es); }
  }

  lemma SameServers(oldUrl: string -> bool, a: Entries, b: Entries)
    requires forall k | k != PROJECTS :: Get(b, k) == Get(a, k)
    ensures HasStaleServer(oldUrl, a) == HasStaleServer(oldUrl, b)
  {
    hide IsStale;
    assert PROJECTS[0] != SERVERS[0];
  }

  lemma CleanedEverywhere(document: Entries)
    requires Readable(document) && Projects(document).IsTableLike()
    ensures var cleaned := CleanProjects(document).value;
            && Distinct(cleaned) && Projects(cleaned).IsTableLike()
            && Projects(cleaned).entries == CleanEntries(Projects(document).entries)
            && (forall k :: ProjectOf(cleaned, k)
                  == if ProjectOf(document, k).Some? then Cleaned(ProjectOf(document, k).value) else None)
            && (forall k | k != PROJECTS :: Get(cleaned, k) == Get(document, k))
  {
    hide Put, Drop, Distinct, CleanEntries, Cleaned, CleanKeys, Keys;
    var projects := Projects(document);
    CleanNothing();
    forall k ensures Get(CleanEntries(projects.entries), k)
                  == if Get(projects.entries, k).Some? then Cleaned(Get(projects.entries, k).value) else None {
      CleanedByKey(projects.entries, k);
    }
    if Get(document, PROJECTS).Some? {
      CleanedAll(projects.entries);
      forall k ensures Get(CleanProjects(document).value, k)
                    == if k == PROJECTS then Some(projects.WithEntries(CleanEntries(projects.entries)))
                        else Get(document, k) {
        GetPut(document, PROJECTS, projects.WithEntries(CleanEntries(projects.entries)), k);
      }
      GetPut(document, PROJECTS, projects.WithEntries(CleanEntries(projects.entries)), PROJECTS);
    }
  }

  lemma ServersLeft(oldUrl: string -> bool, document: Entries, before: Edit<Entries>)
    requires Distinct(before.value) && HasStaleServer(oldUrl, before.value) == HasStaleServer(oldUrl, document)
    ensures var saved := Saved(CleanServers(oldUrl, before).value);
            && (forall k | k != PROJECTS && k != SERVERS :: Get(saved, k) == Get(before.value, k))
            && Projects(saved) == Projects(before.value)
            && (!HasStaleServer(oldUrl, document) ==> Get(saved, SERVERS) == Get(before.value, SERVERS))
            && (HasStaleServer(oldUrl, document) ==>
                  && Get(before.value, SERVERS).Some? && Get(before.value, SERVERS).value.IsTableLike()
                  && var servers := Get(before.value, SERVERS).value;
                     Get(saved, SERVERS) == Some(servers.WithEntries(Drop(servers.entries, CCPANES))))
  {
    hide Put, Drop, IsStale;
    assert PROJECTS[0] != SERVERS[0];
    var value := CleanServers(oldUrl, before).value;
    if HasStaleServer(oldUrl, before.value) {
      var servers := Get(before.value, SERVERS).value;
      forall k ensures Get(value, k) == (if k == SERVERS then Get(value, SERVERS) else Get(before.value, k))
          && Distinct(value) {
        GetPut(before.value, SERVERS, servers.WithEntries(Drop(servers.entries, CCPANES)), k);
      }
      GetPut(before.value, SERVERS, servers.WithEntries(Drop(servers.entries, CCPANES)), PROJECTS);
      GetPut(before.value, SERVERS, servers.WithEntries(Drop(servers.entries, CCPANES)), SERVERS);
    }
    forall k ensures Get(Drop(value, PROJECTS), k) == if k == PROJECTS then None else Get(value, k) {
      GetDrop(value, PROJECTS, k);
    }
  }

  /** Cleaning takes the marked trust levels out, projects left empty with them, and nothing else of the projects; other
      entries stay, but for the stale server. */
  lemma CleanupTakesOnlyMarks(oldUrl: string -> bool, document: Entries)
    requires Readable(document) && Projects(document).IsTableLike()
    ensures var cleaned := Cleanup(oldUrl, Some(document)).file.value;
            && Projects(cleaned).IsTableLike()
            && (forall k :: ProjectOf(cleaned, k)
                  == if ProjectOf(document, k).Some? then Cleaned(ProjectOf(document, k).value) else None)
            && (forall k | k != PROJECTS && k != SERVERS :: Get(cleaned, k) == Get(document, k))
            && (!HasStaleServer(oldUrl, document) ==> Get(cleaned, SERVERS) == Get(document, SERVERS))
            && (ItemsDistinct(Projects(document).entries) ==> NoMarks(Projects(cleaned).entries))
  {
    hide Put, Drop, Distinct, CleanEntries, Cleaned, NoMarks, ItemsDistinct, HasStaleServer, CleanServers, Readable;
    CleanupSaves(oldUrl, document);
    CleanedEverywhere(document);
    CleanEntriesUnmarkedIf(Projects(document).entries);
    SameServers(oldUrl, document, CleanProjects(document).value);
    ServersLeft(oldUrl, document, CleanProjects(document));
  }

  /** The trust level carries the mark behind its value on the line. */
  predicate CarriesMark(project: Item) {
    && project.IsTableLike() && Get(project.entries, "trust_level").Some?
    && match Get(project.entries, "trust_level").value
       case Value(_, suffix) => Contains(suffix, "managed by cc-panes")
       case Inline(_, suffix) => Contains(suffix, "managed by cc-panes")
       case _ => false
  }

  lemma NeverMarked(project: Item)
    ensures HasMark(project) == CarriesMark(project)
  {
    hide Contains;
    assert TRUST == "trust_level" && MARKER == "managed by cc-panes";
    assert !Contains("", "managed by cc-panes") by { MarksAreMarks(); }
  }

  /** A project is left alone unless its trust level carries the mark; then it loses that entry alone, and goes if it
      has no other. */
  lemma MarkGoes(project: Item)
    requires project.IsTableLike() ==> Distinct(project.entries)
    ensures !CarriesMark(project) ==> Cleaned(project) == Some(project)
    ensures CarriesMark(project) ==>
              match Cleaned(project)
              case None => forall name | name != "trust_level" :: Get(project.entries, name).None?
              case Some(rest) =>
                && rest.IsTableLike() && rest.entries != []
                && forall name ::
                     Get(rest.entries, name) == if name == "trust_level" then None else Get(project.entries, name)
  {
    assert TRUST == "trust_level" && MARKER == "managed by cc-panes";
    hide Drop, Distinct, Contains;
    NeverMarked(project);
    if CarriesMark(project) {
      forall name ensures Get(Drop(project.entries, TRUST), name)
          == if name == TRUST then None else Get(project.entries, name) {
        GetDrop(project.entries, TRUST, name);
      }
    }
  }

  /** The server entry of earlier versions, by its address or by the name of its token. */
  predicate OldServer(oldUrl: string -> bool, document: Entries) {
    var servers := Get(document, "mcp_servers");
    && servers.Some? && servers.value.IsTableLike() && Get(servers.value.entries, "ccpanes").Some?
    && var server := Get(servers.value.entries, "ccpanes").value;
       || (server.GetString("url").Some? && oldUrl(server.GetString("url").value))
       || server.GetString("bearer_token_env_var") == Some("CC_PANES_API_TOKEN")
  }

  /** Cleaning takes out the server of earlier versions, if there is one, and no other server. */
  lemma OldServerGoes(oldUrl: string -> bool, document: Entries)
    requires Readable(document) && Projects(document).IsTableLike()
    ensures var cleaned, servers := Cleanup(oldUrl, Some(document)).file.value, Get(document, "mcp_servers");
            && (!OldServer(oldUrl, document) ==> Get(cleaned, "mcp_servers") == servers)
            && (OldServer(oldUrl, document) && Distinct(servers.value.entries) ==>
                  && Get(cleaned, "mcp_servers").Some? && Get(cleaned, "mcp_servers").value.IsTableLike()
                  && forall name :: Get(Get(cleaned, "mcp_servers").value.entries, name)
                       == if name == "ccpanes" then None else Get(servers.value.entries, name))
  {
    assert OldServer(oldUrl, document) == HasStaleServer(oldUrl, document);
    assert SERVERS == "mcp_servers" && CCPANES == "ccpanes";
    hide Put, Drop, Distinct, CleanProjects, HasStaleServer, CleanServers, Readable;
    CleanupSaves(oldUrl, document);
    CleanedEverywhere(document);
    SameServers(oldUrl, document, CleanProjects(document).value);
    ServersLeft(oldUrl, document, CleanProjects(document));
    var servers := Get(document, SERVERS);
    if OldServer(oldUrl, document) && Distinct(servers.value.entries) {
      forall name ensures Get(Drop(servers.value.entries, CCPANES), name)
          == if name == CCPANES then None else Get(servers.value.entries, name) {
        GetDrop(servers.value.entries, CCPANES, name);
      }
    }
  }

  // ---------- The targets ----------

  ghost predicate Ascending(keys: seq<string>) {
    forall i, j | 0 <= i < j < |keys| :: CompareText(keys[i], keys[j]) == Less
  }

  lemma {:induction false} InsertedSorted(key: string, keys: seq<string>)
    requires Ascending(keys)
    ensures Ascending(InsertSorted(key, keys))
    ensures forall k :: k in InsertSorted(key, keys) <==> k == key || k in keys
    decreases |keys|
  {
    hide CompareText;
    if keys != [] {
      TextReverses(key, keys[0]);
      var rest := keys[1..];
      assert keys == [keys[0]] + rest;
      assert Ascending(rest) by { assert forall i | 0 <= i < |rest| :: rest[i] == keys[i + 1]; }
      match CompareText(key, keys[0])
      case Less =>
        forall j | 0 <= j < |keys| ensures CompareText(key, keys[j]) == Less {
          if j > 0 { TextTransitive(key, keys[0], keys[j]); TextReverses(key, keys[j]); }
        }
      case Equal =>
      case Greater =>
        InsertedSorted(key, rest);
        var inserted := InsertSorted(key, rest);
        forall j | 0 <= j < |inserted| ensures CompareText(keys[0], inserted[j]) == Less {
          assert inserted[j] in inserted;
          if inserted[j] != key {
            var i :| 0 <= i < |rest| && rest[i] == inserted[j];
            assert keys[i + 1] == inserted[j];
          }
        }
    }
  }

  /** The targets are the non-empty keys, each once, in order, and none outside yolo mode. */
  lemma {:induction false} TargetsAreKeys(keys: seq<string>, yolo: bool)
    ensures Ascending(Targets(keys, yolo))
    ensures forall k :: k in Targets(keys, yolo) <==> yolo && k != "" && k in keys
    decreases |keys|
  {
    if yolo && keys != [] {
      var most, last := keys[..|keys| - 1], keys[|keys| - 1];
      assert keys == most + [last];
      TargetsAreKeys(most, yolo);
      InsertedSorted(last, Targets(most, yolo));
    }
  }
}
