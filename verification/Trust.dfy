/** The configuration file and the document edited in place. */
module Trust {
  import opened Common
  import opened TrustModel

  lemma MergeStart(es: Entries, inline: bool, keys: seq<string>)
    ensures MergeKeys(es, inline, keys, 0) == Ok(Edit(es, false))
  {
  }

  lemma MergeNext(es: Entries, inline: bool, keys: seq<string>, n: nat)
    requires n < |keys| && MergeKeys(es, inline, keys, n).Ok?
    ensures MergeKeys(es, inline, keys, n + 1) == MergeKey(MergeKeys(es, inline, keys, n).value, inline, keys[n])
  {
  }

  lemma FailureStays(es: Entries, inline: bool, keys: seq<string>, n: nat)
    requires n < |keys| && MergeKeys(es, inline, keys, n).Err?
    ensures MergeKeys(es, inline, keys, n + 1) == MergeKeys(es, inline, keys, n)
  {
    hide MergeKey;
  }

  lemma {:induction false} MergeFails(es: Entries, inline: bool, keys: seq<string>, n: nat)
    requires n <= |keys| && MergeKeys(es, inline, keys, n).Err?
    ensures MergeKeys(es, inline, keys, |keys|) == MergeKeys(es, inline, keys, n)
    decreases |keys| - n
  {
    hide *;
    if n < |keys| {
      FailureStays(es, inline, keys, n);
      MergeFails(es, inline, keys, n + 1);
    }
  }

  lemma CleanStart(es: Entries, keys: seq<string>)
    ensures CleanKeys(es, keys, 0) == Edit(es, false)
  {
  }

  lemma CleanNext(es: Entries, keys: seq<string>, n: nat)
    requires n < |keys|
    ensures CleanKeys(es, keys, n + 1) == CleanKey(CleanKeys(es, keys, n), keys[n])
  {
  }

  lemma MarkedIsTable(p: Item)
    requires HasMark(p)
    ensures p.IsTableLike()
  {
  }

  /** A parsed document. */
  class Document {
    var root: Entries

    constructor (root: Entries)
      ensures this.root == root
    {
      this.root := root;
    }

    method MergeTrustedProjects(keys: seq<string>) returns (r: Result<bool, Failure>)
      modifies this
      ensures match Merge(old(root), keys)
              case Err(e) => r == Err(e)
              case Ok(edit) => r == Ok(edit.changed) && root == edit.value
    {
      hide MergeKeys, TrustedValue, NewTrustedProject, Put, Get;
      var projects := Projects(root);
      if !projects.IsTableLike() {
        return Err(ProjectsNotATable);
      }
      var es, changed, n := projects.entries, false, 0;
      MergeStart(projects.entries, projects.Inline?, keys);
      while n < |keys|
        invariant n <= |keys| && MergeKeys(projects.entries, projects.Inline?, keys, n) == Ok(Edit(es, changed))
        invariant root == old(root)
      {
        var key := keys[n];
        MergeNext(projects.entries, projects.Inline?, keys, n);
        var project := Get(es, key);
        if project.Some? {
          if !project.value.IsTableLike() {
            MergeFails(projects.entries, projects.Inline?, keys, n + 1);
            return Err(ProjectNotATable(key));
          }
          var inside := project.value.entries;
          if Get(inside, TRUST).None? {
            es := Put(es, key, project.value.WithEntries(Put(inside, TRUST, TrustedValue(project.value.Inline?))));
            changed := true;
          }
        } else {
          es := Put(es, key, NewTrustedProject(projects.Inline?));
          changed := true;
        }
        n := n + 1;
      }
      root := Put(root, PROJECTS, projects.WithEntries(es));
      return Ok(changed);
    }

    method RemoveInjections(oldUrl: string -> bool) returns (changed: bool)
      modifies this
      ensures Edit(root, changed) == CleanServers(oldUrl, CleanProjects(old(root)))
    {
      hide CleanKeys, Put, Get, Drop, Keys, HasMark, IsStale;
      changed := false;
      var projects := Get(root, PROJECTS);
      if projects.Some? && projects.value.IsTableLike() {
        ghost var before := projects.value.entries;
        var es, keys, n := projects.value.entries, Keys(projects.value.entries), 0;
        CleanStart(before, keys);
        while n < |keys|
          invariant n <= |keys| && CleanKeys(before, keys, n) == Edit(es, changed)
          invariant root == old(root)
        {
          CleanNext(before, keys, n);
          var key := keys[n];
          var project := Get(es, key);
          if project.Some? && HasMark(project.value) {
            MarkedIsTable(project.value);
            var rest := Drop(project.value.entries, TRUST);
            es := if rest == [] then Drop(es, key) else Put(es, key, project.value.WithEntries(rest));
            changed := true;
          }
          n := n + 1;
        }
        root := Put(root, PROJECTS, projects.value.WithEntries(es));
      }
      if HasStaleServer(oldUrl, root) {
        var servers := Get(root, SERVERS).value;
        root := Put(root, SERVERS, servers.WithEntries(Drop(servers.entries, CCPANES)));
        changed := true;
      }
    }
  }

  lemma NoTargets(keys: seq<string>)
    ensures Targets(keys, false) == []
  {
  }

  class ConfigFile {
    var file: File

    constructor (file: File)
      ensures this.file == file
    {
      this.file := file;
    }

    method PrewriteTrustedProjects(keys: seq<string>, yolo: bool) returns (r: Result<bool, Failure>)
      modifies this
      ensures Step(file, r) == Prewrite(old(file), keys, yolo)
    {
      hide Merge, Saved;
      if !yolo {
        NoTargets(keys);
        return Ok(false);
      }
      var targets := Targets(keys, yolo);
      if targets == [] {
        return Ok(false);
      }
      var document := new Document(file.GetOr([]));
      r := document.MergeTrustedProjects(targets);
      if r == Ok(true) {
        file := Some(Saved(document.root));
      }
    }

    method RemoveCcpanesInjections(oldUrl: string -> bool) returns (changed: bool)
      modifies this
      ensures Step(file, Ok(changed)) == Cleanup(oldUrl, old(file))
    {
      hide CleanServers, CleanProjects, Saved;
      if file.None? {
        return false;
      }
      var document := new Document(file.value);
      changed := document.RemoveInjections(oldUrl);
      if changed {
        file := Some(Saved(document.root));
      }
    }
  }
}
