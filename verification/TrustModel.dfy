/** Trust entries in a user's Codex configuration: which are written before a session, and which are taken back. */
module TrustModel {
  import opened Common
  import opened Text

  // ---------- TOML documents ----------

  datatype Scalar = Str(s: string) | Literal(s: string)

  function Get(es: Entries, key: string): Option<Item> {
    if es == [] then None else if es[0].0 == key then Some(es[0].1) else Get(es[1..], key)
  }

  /** The suffix of a value is what follows it on its line. */
  datatype Item =
    | Value(scalar: Scalar, suffix: string)
    | Inline(entries: Entries, suffix: string)
    | Table(entries: Entries, isImplicit: bool)
    | Other(text: string)
  {
    predicate IsTableLike() { Inline? || Table? }

    function WithEntries(es: Entries): Item
      requires IsTableLike()
    {
      if Inline? then Inline(es, suffix) else Table(es, isImplicit)
    }

    function GetString(key: string): Option<string> {
      if IsTableLike() && Get(entries, key).Some? && Get(entries, key).value.Value?
          && Get(entries, key).value.scalar.Str?
      then Some(Get(entries, key).value.scalar.s) else None
    }
  }

  type Entries = seq<(string, Item)>

  /** In place, or at the end. */
  function Put(es: Entries, key: string, item: Item): Entries {
    if es == [] then [(key, item)]
    else if es[0].0 == key then [(key, item)] + es[1..]
    else [es[0]] + Put(es[1..], key, item)
  }

  function Drop(es: Entries, key: string): Entries {
    if es == [] then [] else if es[0].0 == key then es[1..] else [es[0]] + Drop(es[1..], key)
  }

  predicate Distinct(es: Entries) {
    es == [] || (Get(es[1..], es[0].0).None? && Distinct(es[1..]))
  }

  lemma {:induction false} GetPut(es: Entries, key: string, item: Item, other: string)
    ensures Get(Put(es, key, item), other) == if other == key then Some(item) else Get(es, other)
    ensures Distinct(es) ==> Distinct(Put(es, key, item))
    decreases |es|
  {
    if es != [] && es[0].0 != key {
      GetPut(es[1..], key, item, other);
      GetPut(es[1..], key, item, es[0].0);
    }
  }

  lemma {:induction false} PutTwice(es: Entries, key: string, a: Item, b: Item)
    ensures Put(Put(es, key, a), key, b) == Put(es, key, b)
    ensures Get(es, key) == Some(b) ==> Put(es, key, b) == es
    decreases |es|
  {
    if es != [] && es[0].0 != key {
      PutTwice(es[1..], key, a, b);
    }
  }

  lemma {:induction false} GetDrop(es: Entries, key: string, other: string)
    requires Distinct(es)
    ensures Get(Drop(es, key), other) == if other == key then None else Get(es, other)
    ensures Distinct(Drop(es, key))
    decreases |es|
  {
    if es != [] && es[0].0 != key {
      GetDrop(es[1..], key, other);
      GetDrop(es[1..], key, es[0].0);
    }
  }

  lemma {:induction false} DropPut(es: Entries, key: string, item: Item)
    requires Get(es, key).None?
    ensures Drop(Put(es, key, item), key) == es && Drop(es, key) == es && Put(es, key, item) == es + [(key, item)]
    decreases |es|
  {
    if es != [] {
      DropPut(es[1..], key, item);
    }
  }

  // ---------- Writing trust ----------

  const MARKER := "managed by cc-panes"
  const TRUST := "trust_level"

  /** Inline tables cannot hold a comment, so there the value goes unmarked. */
  function TrustedValue(inline: bool): Item {
    Value(Str("trusted"), if inline then "" else " # " + MARKER)
  }

  function NewTrustedProject(inline: bool): Item {
    if inline then Inline([(TRUST, Value(Str("trusted"), ""))], "") else Table([(TRUST, TrustedValue(false))], false)
  }

  datatype Failure = ProjectsNotATable | ProjectNotATable(key: string)

  datatype Edit<T> = Edit(value: T, changed: bool)

  function MergeKey(before: Edit<Entries>, inline: bool, key: string): Result<Edit<Entries>, Failure> {
    match Get(before.value, key)
    case Some(project) =>
      if !project.IsTableLike() then Err(ProjectNotATable(key))
      else if Get(project.entries, TRUST).Some? then Ok(before)
      else Ok(Edit(Put(before.value, key,
          project.WithEntries(Put(project.entries, TRUST, TrustedValue(project.Inline?)))), true))
    case None => Ok(Edit(Put(before.value, key, NewTrustedProject(inline)), true))
  }

  /** The loop over the keys, after the first `n` of them. */
  function MergeKeys(es: Entries, inline: bool, keys: seq<string>, n: nat): Result<Edit<Entries>, Failure>
    requires n <= |keys|
  {
    if n == 0 then Ok(Edit(es, false))
    else
      match MergeKeys(es, inline, keys, n - 1)
      case Err(e) => Err(e)
      case Ok(before) => MergeKey(before, inline, keys[n - 1])
  }

  const PROJECTS := "projects"

  function Projects(document: Entries): Item {
    Get(document, PROJECTS).GetOr(Table([], true))
  }

  function Merge(document: Entries, keys: seq<string>): Result<Edit<Entries>, Failure> {
    var projects := Projects(document);
    if !projects.IsTableLike() then Err(ProjectsNotATable)
    else
      match MergeKeys(projects.entries, projects.Inline?, keys, |keys|)
      case Err(e) => Err(e)
      case Ok(edit) => Ok(Edit(Put(document, PROJECTS, projects.WithEntries(edit.value)), edit.changed))
  }

  function InsertSorted(key: string, keys: seq<string>): seq<string> {
    if keys == [] then [key]
    else
      match CompareText(key, keys[0])
      case Less => [key] + keys
      case Equal => keys
      case Greater => [keys[0]] + InsertSorted(key, keys[1..])
  }

  /** The non-empty keys as an ordered set. */
  function Targets(keys: seq<string>, yolo: bool): seq<string> {
    if !yolo || keys == [] then []
    else if keys[|keys| - 1] == "" then Targets(keys[..|keys| - 1], yolo)
    else InsertSorted(keys[|keys| - 1], Targets(keys[..|keys| - 1], yolo))
  }

  /** What a saved document reads back as: an implicit table without entries is not written. */
  function Saved(document: Entries): Entries {
    var projects := Get(document, PROJECTS);
    if projects.Some? && projects.value == Table([], true) then Drop(document, PROJECTS) else document
  }

  /** The configuration file, absent or parsed. */
  type File = Option<Entries>

  datatype Step = Step(file: File, result: Result<bool, Failure>)

  function Prewrite(file: File, keys: seq<string>, yolo: bool): Step {
    var targets := Targets(keys, yolo);
    if targets == [] then Step(file, Ok(false))
    else
      match Merge(file.GetOr([]), targets)
      case Err(e) => Step(file, Err(e))
      case Ok(edit) => if edit.changed then Step(Some(Saved(edit.value)), Ok(true)) else Step(file, Ok(false))
  }

  // ---------- Taking trust back ----------

  function Suffix(item: Item): string {
    if item.Value? || item.Inline? then item.suffix else ""
  }

  predicate IsMarked(item: Item) {
    Contains(Suffix(item), MARKER)
  }

  predicate HasMark(project: Item) {
    project.IsTableLike() && Get(project.entries, TRUST).Some? && IsMarked(Get(project.entries, TRUST).value)
  }

  function Keys(es: Entries): seq<string> {
    if es == [] then [] else [es[0].0] + Keys(es[1..])
  }

  function CleanKey(before: Edit<Entries>, key: string): Edit<Entries> {
    var project := Get(before.value, key);
    if project.None? || !HasMark(project.value) then before
    else
      var rest := Drop(project.value.entries, TRUST);
      Edit(if rest == [] then Drop(before.value, key)
          else Put(before.value, key, project.value.WithEntries(rest)), true)
  }

  /** The loop over the project keys, after the first `n` of them. */
  function CleanKeys(es: Entries, keys: seq<string>, n: nat): Edit<Entries>
    requires n <= |keys|
  {
    if n == 0 then Edit(es, false) else CleanKey(CleanKeys(es, keys, n - 1), keys[n - 1])
  }

  function CleanProjects(document: Entries): Edit<Entries> {
    var projects := Get(document, PROJECTS);
    if projects.None? || !projects.value.IsTableLike() then Edit(document, false)
    else
      var es := projects.value.entries;
      var edit := CleanKeys(es, Keys(es), |Keys(es)|);
      Edit(Put(document, PROJECTS, projects.value.WithEntries(edit.value)), edit.changed)
  }

  const SERVERS := "mcp_servers"
  const CCPANES := "ccpanes"

  /** `oldUrl` recognises the addresses under which earlier versions registered themselves. */
  predicate IsStale(oldUrl: string -> bool, server: Item) {
    || (server.GetString("url").Some? && oldUrl(server.GetString("url").value))
    || server.GetString("bearer_token_env_var") == Some("CC_PANES_API_TOKEN")
  }

  predicate HasStaleServer(oldUrl: string -> bool, document: Entries) {
    var servers := Get(document, SERVERS);
    servers.Some? && servers.value.IsTableLike() && Get(servers.value.entries, CCPANES).Some?
    && IsStale(oldUrl, Get(servers.value.entries, CCPANES).value)
  }

  function CleanServers(oldUrl: string -> bool, before: Edit<Entries>): Edit<Entries> {
    if !HasStaleServer(oldUrl, before.value) then before
    else
      var servers := Get(before.value, SERVERS).value;
      Edit(Put(before.value, SERVERS, servers.WithEntries(Drop(servers.entries, CCPANES))), true)
  }

  function Cleanup(oldUrl: string -> bool, file: File): Step {
    if file.None? then Step(file, Ok(false))
    else
      var edit := CleanServers(oldUrl, CleanProjects(file.value));
      if edit.changed then Step(Some(Saved(edit.value)), Ok(true)) else Step(file, Ok(false))
  }
}
