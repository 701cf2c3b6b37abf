/** Keeping the cc-panes hooks of a project's settings file in step with what is wanted, and taking them out again. */
module ClaudeHooks {
  import opened Common
  import opened Text
  import opened HookCommand

  const HOOK_BINARY_NAME := "cc-panes-cli-hook"
  const LEGACY_HOOK_BINARY_NAME := "cc-panes-hook"

  datatype HookDef = HookDef(name: string, subcommand: string, event: string, matcher: string, timeout: nat)

  const HOOK_DEFS: seq<HookDef> := [
    HookDef("session-inject", "session-init", "SessionStart", "startup", 10),
    HookDef("session-resume-inject", "session-resume", "SessionStart", "resume|compact", 10),
    HookDef("plan-archive", "tool-after", "PostToolUse", "", 5),
    HookDef("state-prompt-before", "prompt-before", "UserPromptSubmit", "", 10),
    HookDef("state-tool-before", "tool-before", "PreToolUse", "", 60),
    HookDef("state-turn-end", "turn-end", "Stop", "", 10),
    HookDef("state-before-compact", "before-compact", "PreCompact", "manual|auto", 15),
    HookDef("state-waiting-input", "waiting-input", "Notification", "permission_prompt|elicitation_dialog", 5),
    HookDef("state-error", "error", "StopFailure", "", 5),
    HookDef("state-session-end", "session-end", "SessionEnd", "", 5),
    HookDef("task-queue-permission-request", "permission-request", "PermissionRequest", "", 5)]

  function LegacySubcommands(def: HookDef): seq<string> {
    if def.name == "session-inject" then ["session-start"]
    else if def.name == "plan-archive" then ["plan-archive"]
    else []
  }

  function LegacyMatchers(def: HookDef): seq<string> {
    if def.name == "session-inject" then ["startup|resume"]
    else if def.name == "state-waiting-input" then
      ["permission_prompt|elicitation_dialog|elicitation_complete|elicitation_response|idle_prompt"]
    else []
  }

  // ---------- Recognising entries ----------

  predicate NamesHookBinary(command: string) {
    Contains(command, HOOK_BINARY_NAME) || Contains(command, LEGACY_HOOK_BINARY_NAME)
  }

  predicate RunsHookBinary(hook: Json) {
    var command := hook.GetString("command");
    command.Some? && NamesHookBinary(command.value)
  }

  function HookList(entry: Json): seq<Json> {
    var hooks := entry.Get("hooks");
    if hooks.Some? && hooks.value.JArray? then hooks.value.items else []
  }

  predicate IsCcpanesHookEntry(entry: Json) {
    exists hook | hook in HookList(entry) :: RunsHookBinary(hook)
  }

  function FirstCommand(entry: Json): string {
    if HookList(entry) == [] then "" else HookList(entry)[0].GetString("command").GetOr("")
  }

  predicate MatchesDef(entry: Json, def: HookDef) {
    && IsCcpanesHookEntry(entry)
    && (var matcher := entry.GetString("matcher").GetOr("");
        matcher == def.matcher || matcher in LegacyMatchers(def))
    && exists subcommand | subcommand in [def.subcommand] + LegacySubcommands(def) ::
        Contains(FirstCommand(entry), subcommand)
  }

  // ---------- Synchronising ----------

  /** What is wanted: which definitions are enabled, and the binary the enabled ones run. */
  datatype Wanted = Wanted(desired: map<string, bool>, path: string, shell: Shell) {
    predicate Enables(def: HookDef) {
      if def.name in desired then desired[def.name] else true
    }

    function Command(def: HookDef): string {
      BuildGuardedHookCommand(path, def.subcommand, shell)
    }

    function Entry(def: HookDef): Json {
      JObject(map[
        "matcher" := JString(def.matcher),
        "hooks" := JArray([JObject(map[
          "type" := JString("command"),
          "command" := JString(Command(def)),
          "timeout" := JInt(def.timeout),
          "async" := JBool(def.event != "PermissionRequest")])])])
    }
  }

  type Hooks = map<string, Json>

  function Without(entries: seq<Json>, def: HookDef): seq<Json> {
    if entries == [] then []
    else (if MatchesDef(entries[0], def) then [] else [entries[0]]) + Without(entries[1..], def)
  }

  function Merge(hooks: Hooks, def: HookDef, entry: Json): Hooks {
    var value := if def.event in hooks then hooks[def.event] else JArray([]);
    hooks[def.event := if value.JArray? then JArray(Without(value.items, def) + [entry]) else value]
  }

  function Unregister(hooks: Hooks, def: HookDef): Hooks {
    if def.event in hooks && hooks[def.event].JArray?
    then hooks[def.event := JArray(Without(hooks[def.event].items, def))]
    else hooks
  }

  function SyncDef(hooks: Hooks, def: HookDef, want: Wanted): Hooks {
    if want.Enables(def) then Merge(hooks, def, want.Entry(def)) else Unregister(hooks, def)
  }

  function SyncDefs(hooks: Hooks, defs: seq<HookDef>, want: Wanted): Hooks {
    if defs == [] then hooks
    else SyncDef(SyncDefs(hooks, defs[..|defs| - 1], want), defs[|defs| - 1], want)
  }

  function DropEmpty(hooks: Hooks): Hooks {
    map event | event in hooks && hooks[event] != JArray([]) :: hooks[event]
  }

  function Synced(hooks: Hooks, defs: seq<HookDef>, want: Wanted): Hooks {
    DropEmpty(SyncDefs(hooks, defs, want))
  }

  function Strip(entries: seq<Json>): seq<Json> {
    if entries == [] then []
    else (if IsCcpanesHookEntry(entries[0]) then [] else [entries[0]]) + Strip(entries[1..])
  }

  function StripValue(value: Json): Json {
    if value.JArray? then JArray(Strip(value.items)) else value
  }

  /** The user's own hooks: no cc-panes entries and no empty arrays. */
  function Cleaned(hooks: Hooks): Hooks {
    DropEmpty(map event | event in hooks :: StripValue(hooks[event]))
  }

  // ---------- The closed form of a synchronisation ----------

  /** Definitions of one event never recognise each other's entries. */
  ghost predicate Separate(defs: seq<HookDef>) {
    forall i, j | 0 <= i < |defs| && 0 <= j < |defs| && i != j && defs[i].event == defs[j].event ::
      defs[i].matcher != defs[j].matcher && defs[i].matcher !in LegacyMatchers(defs[j])
  }

  function Foreign(entries: seq<Json>, defs: seq<HookDef>, event: string): seq<Json> {
    if defs == [] then entries
    else
      var def := defs[|defs| - 1];
      var rest := Foreign(entries, defs[..|defs| - 1], event);
      if def.event == event then Without(rest, def) else rest
  }

  function Own(defs: seq<HookDef>, event: string, want: Wanted): seq<Json> {
    if defs == [] then []
    else
      var def := defs[|defs| - 1];
      Own(defs[..|defs| - 1], event, want)
        + (if def.event == event && want.Enables(def) then [want.Entry(def)] else [])
  }

  /** The entries of an event; one that is absent holds none, and one that is not an array cannot hold any. */
  function Entries(hooks: Hooks, event: string): Option<seq<Json>> {
    if event !in hooks then Some([])
    else if hooks[event].JArray? then Some(hooks[event].items)
    else None
  }

  lemma {:induction false} WithoutConcat(a: seq<Json>, b: seq<Json>, def: HookDef)
    ensures Without(a + b, def) == Without(a, def) + Without(b, def)
  {
    hide MatchesDef;
    if a == [] {
      assert a + b == b;
    } else {
      WithoutConcat(a[1..], b, def);
      ConcatHead(a, b);
    }
  }

  lemma {:induction false} WithoutNone(entries: seq<Json>, def: HookDef)
    requires forall i | 0 <= i < |entries| :: !MatchesDef(entries[i], def)
    ensures Without(entries, def) == entries
  {
    hide MatchesDef;
    if entries != [] {
      WithoutNone(entries[1..], def);
      assert entries == [entries[0]] + entries[1..];
    }
  }

  // ---------- The entries written here ----------

  lemma CommandHasSubcommand(want: Wanted, def: HookDef)
    ensures Contains(want.Command(def), def.subcommand)
  {
    hide Contains, Quote;
    var path, sub := want.path, def.subcommand;
    match want.shell
    case Posix =>
      var head := "if [ -x " + (Quote(path) + (" ]; then " + (Quote(path) + " ")));
      ContainsMiddle(head, sub, "; fi");
      assert want.Command(def) == head + (sub + "; fi");
    case Windows =>
      var head := "if exist \"" + (path + ("\" \"" + (path + "\" ")));
      ContainsMiddle(head, sub, "");
      assert want.Command(def) == head + (sub + "");
  }

  lemma EntryReads(want: Wanted, def: HookDef)
    ensures var entry := want.Entry(def);
            && |HookList(entry)| == 1
            && IsCcpanesHookEntry(entry) == NamesHookBinary(want.Command(def))
            && entry.GetString("matcher") == Some(def.matcher)
            && FirstCommand(entry) == want.Command(def)
  {
    hide NamesHookBinary, BuildGuardedHookCommand;
    var hook := HookList(want.Entry(def))[0];
    assert hook.GetString("command") == Some(want.Command(def));
    assert RunsHookBinary(hook) == NamesHookBinary(want.Command(def));
  }

  // ---------- Entries of earlier versions ----------

  /** An entry with one command. */
  function Single(matcher: string, command: string): Json {
    JObject(map["matcher" := JString(matcher), "hooks" := JArray([JObject(map["command" := JString(command)])])])
  }

  function CommandHooks(commands: seq<string>): seq<Json> {
    if commands == [] then []
    else [JObject(map["command" := JString(commands[0])])] + CommandHooks(commands[1..])
  }

  predicate OfOurs(command: string) {
    Contains(command, "cc-panes-cli-hook") || Contains(command, "cc-panes-hook")
  }

  lemma {:induction false} CommandHookRuns(commands: seq<string>)
    ensures (exists hook :: hook in CommandHooks(commands) && RunsHookBinary(hook))
        <==> exists command :: command in commands && OfOurs(command)
  {
    hide Contains;
    if commands != [] {
      var hook, rest := JObject(map["command" := JString(commands[0])]), CommandHooks(commands[1..]);
      CommandHookRuns(commands[1..]);
      assert hook.GetString("command") == Some(commands[0]);
      assert RunsHookBinary(hook) == OfOurs(commands[0]);
      assert CommandHooks(commands) == [hook] + rest && commands == [commands[0]] + commands[1..];
    }
  }

  /** An entry is one of ours if any of its commands runs our binary, also one behind a command of the user's. */
  lemma AnyCommandCounts(matcher: string, commands: seq<string>)
    ensures var entry := JObject(map["matcher" := JString(matcher), "hooks" := JArray(CommandHooks(commands))]);
            IsCcpanesHookEntry(entry) <==> exists command :: command in commands && OfOurs(command)
  {
    hide OfOurs, RunsHookBinary, CommandHooks;
    CommandHookRuns(commands);
  }

  lemma SingleReads(matcher: string, command: string)
    ensures var entry := Single(matcher, command);
            && IsCcpanesHookEntry(entry) == OfOurs(command)
            && entry.GetString("matcher") == Some(matcher) && FirstCommand(entry) == command
  {
    hide Contains;
    var entry := Single(matcher, command);
    var hook := HookList(entry)[0];
    assert HookList(entry) == [hook] && hook.GetString("command") == Some(command);
    assert RunsHookBinary(hook) == OfOurs(command);
  }

  lemma SingleMatches(matcher: string, command: string, def: HookDef)
    ensures MatchesDef(Single(matcher, command), def) <==>
              && OfOurs(command) && (matcher == def.matcher || matcher in LegacyMatchers(def))
              && (Contains(command, def.subcommand)
                  || exists sub | sub in LegacySubcommands(def) :: Contains(command, sub))
  {
    hide Contains, OfOurs, IsCcpanesHookEntry, FirstCommand, LegacyMatchers, LegacySubcommands;
    SingleReads(matcher, command);
  }

  /** The old values of the three definitions that have any. */
  lemma LegacyValues()
    ensures LegacyMatchers(HOOK_DEFS[0]) == ["startup|resume"] && LegacySubcommands(HOOK_DEFS[0]) == ["session-start"]
    ensures LegacyMatchers(HOOK_DEFS[2]) == [] && LegacySubcommands(HOOK_DEFS[2]) == ["plan-archive"]
    ensures LegacySubcommands(HOOK_DEFS[7]) == []
    ensures LegacyMatchers(HOOK_DEFS[7])
         == ["permission_prompt|elicitation_dialog|elicitation_complete|elicitation_response|idle_prompt"]
    ensures HOOK_DEFS[0].matcher == "startup" && HOOK_DEFS[0].subcommand == "session-init"
    ensures HOOK_DEFS[2].matcher == "" && HOOK_DEFS[2].subcommand == "tool-after"
    ensures HOOK_DEFS[7].matcher == "permission_prompt|elicitation_dialog" && HOOK_DEFS[7].subcommand == "waiting-input"
  {
  }

  lemma HowMany()
    ensures |HOOK_DEFS| == 11
  {
  }

  /** The entries that earlier versions wrote are taken for those of today's definitions, and are replaced by them. */
  lemma EarlierEntriesAreOurs(matcher: string, command: string)
    ensures MatchesDef(Single(matcher, command), HOOK_DEFS[0]) <==>
              && OfOurs(command) && (matcher == "startup" || matcher == "startup|resume")
              && (Contains(command, "session-init") || Contains(command, "session-start"))
    ensures MatchesDef(Single(matcher, command), HOOK_DEFS[2]) <==>
              OfOurs(command) && matcher == "" && (Contains(command, "tool-after") || Contains(command, "plan-archive"))
    ensures MatchesDef(Single(matcher, command), HOOK_DEFS[7]) <==>
              && OfOurs(command) && Contains(command, "waiting-input")
              && matcher in {
                   "permission_prompt|elicitation_dialog",
                   "permission_prompt|elicitation_dialog|elicitation_complete|elicitation_response|idle_prompt"}
  {
    hide Contains, OfOurs, LegacyMatchers, LegacySubcommands, MatchesDef, Single, HOOK_DEFS;
    assert |HOOK_DEFS| == 11 by { HowMany(); }
    LegacyValues();
    SingleMatches(matcher, command, HOOK_DEFS[0]);
    SingleMatches(matcher, command, HOOK_DEFS[2]);
    SingleMatches(matcher, command, HOOK_DEFS[7]);
  }

  // ---------- What is written ----------

  /** What is written for a definition, read back field by field. */
  lemma EntryFields(want: Wanted, def: HookDef)
    ensures var entry := want.Entry(def);
            && HookList(entry) != []
            && var hook := HookList(entry)[0];
               && hook.GetString("type") == Some("command")
               && hook.Get("timeout") == Some(JInt(def.timeout))
               && (hook.Get("async") == Some(JBool(false)) || hook.Get("async") == Some(JBool(true)))
               && (hook.Get("async") == Some(JBool(false)) <==> def.event == "PermissionRequest")
  {
  }

  /** Whether the command written for a definition can be recognised again. */
  predicate Recognised(want: Wanted, def: HookDef) {
    NamesHookBinary(want.Command(def))
  }

  /** A definition recognises the entry it writes exactly when the command names the hook binary. */
  lemma EntryMatchesOwn(want: Wanted, def: HookDef)
    ensures MatchesDef(want.Entry(def), def) == Recognised(want, def)
  {
    hide Contains, NamesHookBinary, IsCcpanesHookEntry, FirstCommand, BuildGuardedHookCommand;
    EntryReads(want, def);
    CommandHasSubcommand(want, def);
    assert def.subcommand in [def.subcommand] + LegacySubcommands(def);
  }

  lemma EntryMatchesNoOther(want: Wanted, def: HookDef, other: HookDef)
    requires def.matcher != other.matcher && def.matcher !in LegacyMatchers(other)
    ensures !MatchesDef(want.Entry(def), other)
  {
    hide Contains, NamesHookBinary, IsCcpanesHookEntry, FirstCommand;
    EntryReads(want, def);
  }

  ghost predicate WrittenFor(entry: Json, defs: seq<HookDef>, event: string, want: Wanted) {
    exists j :: 0 <= j < |defs| && entry == want.Entry(defs[j]) && defs[j].event == event && want.Enables(defs[j])
  }

  lemma {:induction false} OwnComesFrom(defs: seq<HookDef>, event: string, want: Wanted)
    ensures forall entry | entry in Own(defs, event, want) :: WrittenFor(entry, defs, event, want)
  {
    if defs != [] {
      var n := |defs| - 1;
      OwnComesFrom(defs[..n], event, want);
      forall entry | entry in Own(defs, event, want) ensures WrittenFor(entry, defs, event, want) {
        if entry in Own(defs[..n], event, want) {
          var j :| 0 <= j < n && entry == want.Entry(defs[..n][j]) && defs[..n][j].event == event
              && want.Enables(defs[..n][j]);
          assert defs[..n][j] == defs[j];
        } else {
          assert entry == want.Entry(defs[n]);
        }
      }
    }
  }

  /** A definition recognises no entry written for the others. */
  lemma OwnUnmatched(defs: seq<HookDef>, event: string, want: Wanted, def: HookDef)
    requires Separate(defs + [def]) && def.event == event
    ensures forall i | 0 <= i < |Own(defs, event, want)| :: !MatchesDef(Own(defs, event, want)[i], def)
  {
    hide MatchesDef, Own;
    var own := Own(defs, event, want);
    OwnComesFrom(defs, event, want);
    forall i | 0 <= i < |own| ensures !MatchesDef(own[i], def) {
      assert own[i] in own && WrittenFor(own[i], defs, event, want);
      var j :| 0 <= j < |defs| && own[i] == want.Entry(defs[j]) && defs[j].event == event && want.Enables(defs[j]);
      assert (defs + [def])[j] == defs[j] && (defs + [def])[|defs|] == def;
      EntryMatchesNoOther(want, defs[j], def);
    }
  }

  lemma OwnStays(defs: seq<HookDef>, event: string, want: Wanted, def: HookDef)
    requires Separate(defs + [def]) && def.event == event
    ensures Without(Own(defs, event, want), def) == Own(defs, event, want)
  {
    OwnUnmatched(defs, event, want, def);
    WithoutNone(Own(defs, event, want), def);
  }

  /** The entry written for the last definition, if it belongs to the event. */
  function LastOwn(def: HookDef, event: string, want: Wanted): seq<Json> {
    if def.event == event && want.Enables(def) then [want.Entry(def)] else []
  }

  /** What one definition does to an event. */
  lemma SyncDefEntries(hooks: Hooks, def: HookDef, want: Wanted, event: string)
    ensures var synced := SyncDef(hooks, def, want);
            match Entries(hooks, event)
            case None => event in synced && synced[event] == hooks[event]
            case Some(entries) =>
              Entries(synced, event)
                == Some(if def.event == event then Without(entries, def) + LastOwn(def, event, want) else entries)
  {
    hide MatchesDef;
    if Entries(hooks, event).Some? {
      var entries := Entries(hooks, event).value;
      assert Without(entries, def) + [] == Without(entries, def);
      assert Without([], def) == [];
    }
  }

  lemma OwnSplits(defs: seq<HookDef>, event: string, want: Wanted)
    requires defs != []
    ensures Own(defs, event, want) == Own(defs[..|defs| - 1], event, want) + LastOwn(defs[|defs| - 1], event, want)
  {
  }

  lemma SeparateLast(defs: seq<HookDef>, k: nat)
    requires Separate(defs) && k < |defs|
    ensures var n := |defs| - 1;
            && Separate(defs[..n]) && defs[..n] + [defs[n]] == defs
            && (k < n ==> defs[..n][k] == defs[k])
            && (k < n && defs[n].event == defs[k].event ==>
                  defs[n].matcher != defs[k].matcher && defs[n].matcher !in LegacyMatchers(defs[k]))
  {
  }

  lemma ClosedFormStep(entries: seq<Json>, defs: seq<HookDef>, event: string, want: Wanted)
    requires defs != [] && Separate(defs)
    ensures var n := |defs| - 1;
            var before := Foreign(entries, defs[..n], event) + Own(defs[..n], event, want);
            Foreign(entries, defs, event) + Own(defs, event, want)
              == if defs[n].event == event then Without(before, defs[n]) + LastOwn(defs[n], event, want) else before
  {
    hide MatchesDef, Own;
    var n := |defs| - 1;
    var def := defs[n];
    OwnSplits(defs, event, want);
    SeparateLast(defs, n);
    var foreign, own := Foreign(entries, defs[..n], event), Own(defs[..n], event, want);
    if def.event == event {
      WithoutConcat(foreign, own, def);
      OwnStays(defs[..n], event, want, def);
      ConcatAssociates(Without(foreign, def), own, LastOwn(def, event, want));
    } else {
      assert own + [] == own;
    }
  }

  lemma NothingWanted(entries: seq<Json>, event: string, want: Wanted)
    ensures Foreign(entries, [], event) + Own([], event, want) == entries
  {
  }

  /** After any definitions, an event that can hold entries holds the foreign ones, in their order, followed by those
      of its enabled definitions; nothing else changes. */
  lemma {:induction false} SyncClosedForm(hooks: Hooks, defs: seq<HookDef>, want: Wanted, event: string)
    requires Separate(defs)
    ensures var synced := SyncDefs(hooks, defs, want);
            match Entries(hooks, event)
            case None => event in synced && synced[event] == hooks[event]
            case Some(entries) =>
              Entries(synced, event) == Some(Foreign(entries, defs, event) + Own(defs, event, want))
  {
    hide MatchesDef, Own, Foreign, SyncDef, LastOwn;
    if defs == [] {
      NothingWanted(Entries(hooks, event).GetOr([]), event, want);
    } else {
      var n := |defs| - 1;
      var def := defs[n];
      SeparateLast(defs, n);
      SyncClosedForm(hooks, defs[..n], want, event);
      var before := SyncDefs(hooks, defs[..n], want);
      SyncDefEntries(before, def, want, event);
      if Entries(hooks, event).Some? {
        var entries := Entries(hooks, event).value;
        ClosedFormStep(entries, defs, event, want);
      }
    }
  }

  // ---------- Precision ----------

  function Matching(entries: seq<Json>, def: HookDef): seq<Json> {
    if entries == [] then []
    else (if MatchesDef(entries[0], def) then [entries[0]] else []) + Matching(entries[1..], def)
  }

  lemma {:induction false} MatchingConcat(a: seq<Json>, b: seq<Json>, def: HookDef)
    ensures Matching(a + b, def) == Matching(a, def) + Matching(b, def)
  {
    hide MatchesDef;
    if a == [] {
      assert a + b == b;
    } else {
      MatchingConcat(a[1..], b, def);
      ConcatHead(a, b);
      ConcatAssociates(if MatchesDef(a[0], def) then [a[0]] else [], Matching(a[1..], def), Matching(b, def));
    }
  }

  lemma {:induction false} MatchingNone(entries: seq<Json>, def: HookDef)
    requires forall i | 0 <= i < |entries| :: !MatchesDef(entries[i], def)
    ensures Matching(entries, def) == []
  {
    hide MatchesDef;
    if entries != [] {
      MatchingNone(entries[1..], def);
    }
  }

  lemma LastOwnMatching(def: HookDef, event: string, want: Wanted, other: HookDef)
    requires other.event == event
    requires || def == other || def.event != event
             || (def.matcher != other.matcher && def.matcher !in LegacyMatchers(other))
    ensures Matching(LastOwn(def, event, want), other)
         == if def == other && want.Enables(def) && Recognised(want, def) then [want.Entry(def)] else []
  {
    hide MatchesDef, Recognised;
    EntryMatchesOwn(want, def);
    if def.event == event && def != other { EntryMatchesNoOther(want, def, other); }
  }

  /** Among the entries written, a definition finds exactly its own. */
  lemma {:induction false} OwnMatching(defs: seq<HookDef>, event: string, want: Wanted, k: nat)
    requires Separate(defs) && k < |defs| && defs[k].event == event
    ensures Matching(Own(defs, event, want), defs[k])
         == if want.Enables(defs[k]) && Recognised(want, defs[k]) then [want.Entry(defs[k])] else []
  {
    hide *;
    var n := |defs| - 1;
    var def := defs[n];
    var own := Own(defs[..n], event, want);
    OwnSplits(defs, event, want);
    MatchingConcat(own, LastOwn(def, event, want), defs[k]);
    SeparateLast(defs, k);
    LastOwnMatching(def, event, want, defs[k]);
    if k < n {
      OwnMatching(defs[..n], event, want, k);
    } else {
      OwnUnmatched(defs[..n], event, want, def);
      MatchingNone(own, def);
    }
  }

  // ---------- Foreign entries ----------

  lemma {:induction false} WithoutMembers(entries: seq<Json>, def: HookDef, x: Json)
    ensures x in Without(entries, def) <==> x in entries && !MatchesDef(x, def)
  {
    hide MatchesDef;
    if entries != [] {
      WithoutMembers(entries[1..], def, x);
      assert x in entries <==> x == entries[0] || x in entries[1..];
    }
  }

  /** Foreign entries are those that no definition of the event recognises. */
  lemma {:induction false} ForeignMembers(entries: seq<Json>, defs: seq<HookDef>, event: string, x: Json)
    ensures x in Foreign(entries, defs, event) <==>
              x in entries && forall k | 0 <= k < |defs| && defs[k].event == event :: !MatchesDef(x, defs[k])
  {
    hide MatchesDef, Without;
    if defs != [] {
      var n := |defs| - 1;
      ForeignMembers(entries, defs[..n], event, x);
      assert forall k | 0 <= k < n :: defs[..n][k] == defs[k];
      WithoutMembers(Foreign(entries, defs[..n], event), defs[n], x);
    }
  }

  lemma {:induction false} ForeignConcat(a: seq<Json>, b: seq<Json>, defs: seq<HookDef>, event: string)
    ensures Foreign(a + b, defs, event) == Foreign(a, defs, event) + Foreign(b, defs, event)
  {
    hide MatchesDef, Without;
    if defs != [] {
      var n := |defs| - 1;
      ForeignConcat(a, b, defs[..n], event);
      WithoutConcat(Foreign(a, defs[..n], event), Foreign(b, defs[..n], event), defs[n]);
    }
  }

  lemma {:induction false} ForeignKeeps(entries: seq<Json>, defs: seq<HookDef>, event: string)
    requires forall i, k | 0 <= i < |entries| && 0 <= k < |defs| && defs[k].event == event ::
               !MatchesDef(entries[i], defs[k])
    ensures Foreign(entries, defs, event) == entries
  {
    hide MatchesDef, Without;
    if defs != [] {
      var n := |defs| - 1;
      assert forall k | 0 <= k < n :: defs[..n][k] == defs[k];
      ForeignKeeps(entries, defs[..n], event);
      if defs[n].event == event { WithoutNone(entries, defs[n]); }
    }
  }

  /** Taking the foreign entries twice is taking them once. */
  lemma ForeignTwice(entries: seq<Json>, defs: seq<HookDef>, event: string)
    ensures Foreign(Foreign(entries, defs, event), defs, event) == Foreign(entries, defs, event)
  {
    hide MatchesDef, Foreign;
    var foreign := Foreign(entries, defs, event);
    forall i, k | 0 <= i < |foreign| && 0 <= k < |defs| && defs[k].event == event
      ensures !MatchesDef(foreign[i], defs[k])
    {
      assert foreign[i] in foreign;
      ForeignMembers(entries, defs, event, foreign[i]);
    }
    ForeignKeeps(foreign, defs, event);
  }

  /** Every enabled definition of the event can recognise its entry again. */
  ghost predicate AllRecognised(defs: seq<HookDef>, event: string, want: Wanted) {
    forall k | 0 <= k < |defs| && defs[k].event == event && want.Enables(defs[k]) :: Recognised(want, defs[k])
  }

  lemma {:induction false} OwnHas(defs: seq<HookDef>, event: string, want: Wanted, j: nat)
    requires j < |defs| && defs[j].event == event && want.Enables(defs[j])
    ensures want.Entry(defs[j]) in Own(defs, event, want)
  {
    var n := |defs| - 1;
    if j < n {
      OwnHas(defs[..n], event, want, j);
    }
  }

  lemma UnrecognisedIsForeign(defs: seq<HookDef>, event: string, want: Wanted, j: nat)
    requires j < |defs| && defs[j].event == event && want.Enables(defs[j]) && !Recognised(want, defs[j])
    ensures want.Entry(defs[j]) in Foreign(Own(defs, event, want), defs, event)
  {
    hide Foreign, NamesHookBinary;
    var x := want.Entry(defs[j]);
    OwnHas(defs, event, want, j);
    EntryReads(want, defs[j]);
    ForeignMembers(Own(defs, event, want), defs, event, x);
  }

  /** None of the entries written is foreign exactly when all of them can be recognised. */
  lemma OwnForeign(defs: seq<HookDef>, event: string, want: Wanted)
    ensures Foreign(Own(defs, event, want), defs, event) == [] <==> AllRecognised(defs, event, want)
  {
    hide MatchesDef, Foreign, Recognised, Own;
    var own := Own(defs, event, want);
    var left := Foreign(own, defs, event);
    if AllRecognised(defs, event, want) && left != [] {
      var x := left[0];
      ForeignMembers(own, defs, event, x);
      OwnComesFrom(defs, event, want);
      assert WrittenFor(x, defs, event, want);
      var j :| 0 <= j < |defs| && x == want.Entry(defs[j]) && defs[j].event == event && want.Enables(defs[j]);
      EntryMatchesOwn(want, defs[j]);
      assert false;
    }
    if !AllRecognised(defs, event, want) {
      var j :| 0 <= j < |defs| && defs[j].event == event && want.Enables(defs[j]) && !Recognised(want, defs[j]);
      UnrecognisedIsForeign(defs, event, want, j);
    }
  }

  // ---------- The main results ----------

  lemma DropEmptyEntries(hooks: Hooks, event: string)
    ensures Entries(DropEmpty(hooks), event) == Entries(hooks, event)
    ensures Entries(hooks, event).None? ==> event in DropEmpty(hooks) && DropEmpty(hooks)[event] == hooks[event]
  {
  }

  /** The entries of an event after a synchronisation. */
  lemma SyncedEntries(hooks: Hooks, defs: seq<HookDef>, want: Wanted, event: string)
    requires Separate(defs)
    ensures var synced := Synced(hooks, defs, want);
            match Entries(hooks, event)
            case None => event in synced && synced[event] == hooks[event] && Entries(synced, event) == None
            case Some(entries) =>
              Entries(synced, event) == Some(Foreign(entries, defs, event) + Own(defs, event, want))
  {
    hide Foreign, Own, DropEmpty, SyncDefs;
    SyncClosedForm(hooks, defs, want, event);
    DropEmptyEntries(SyncDefs(hooks, defs, want), event);
  }

  lemma ForeignUnmatched(entries: seq<Json>, defs: seq<HookDef>, event: string, k: nat)
    requires k < |defs| && defs[k].event == event
    ensures Matching(Foreign(entries, defs, event), defs[k]) == []
  {
    hide Foreign, Matching, MatchesDef;
    var foreign := Foreign(entries, defs, event);
    forall i | 0 <= i < |foreign| ensures !MatchesDef(foreign[i], defs[k]) {
      assert foreign[i] in foreign;
      ForeignMembers(entries, defs, event, foreign[i]);
    }
    MatchingNone(foreign, defs[k]);
  }

  /** What matches a definition among the entries of a synchronised event. */
  lemma SyncedMatching(entries: seq<Json>, defs: seq<HookDef>, event: string, want: Wanted, k: nat)
    requires Separate(defs) && k < |defs| && defs[k].event == event && AllRecognised(defs, event, want)
    ensures Matching(Foreign(entries, defs, event) + Own(defs, event, want), defs[k])
         == if want.Enables(defs[k]) then [want.Entry(defs[k])] else []
  {
    assert want.Enables(defs[k]) ==> Recognised(want, defs[k]);
    hide *;
    MatchingConcat(Foreign(entries, defs, event), Own(defs, event, want), defs[k]);
    ForeignUnmatched(entries, defs, event, k);
    OwnMatching(defs, event, want, k);
  }

  /** What is foreign among the entries of a synchronised event. */
  lemma SyncedForeign(entries: seq<Json>, defs: seq<HookDef>, event: string, want: Wanted)
    requires AllRecognised(defs, event, want)
    ensures Foreign(Foreign(entries, defs, event) + Own(defs, event, want), defs, event)
         == Foreign(entries, defs, event)
  {
    hide Foreign, Own, AllRecognised;
    ForeignConcat(Foreign(entries, defs, event), Own(defs, event, want), defs, event);
    ForeignTwice(entries, defs, event);
    OwnForeign(defs, event, want);
  }

  /** Precision: in an event that can hold entries, each enabled definition has exactly its own entry, each disabled
      one has none, and the entries no definition recognises keep their content and order.  (An event whose value
      is not an array is left as it is, and then holds no entry: see SyncedEntries.) */
  lemma SyncIsPrecise(hooks: Hooks, defs: seq<HookDef>, want: Wanted, k: nat)
    requires Separate(defs) && k < |defs| && Entries(hooks, defs[k].event).Some?
    requires AllRecognised(defs, defs[k].event, want)
    ensures var event := defs[k].event;
            var after := Entries(Synced(hooks, defs, want), event);
            && after.Some?
            && Matching(after.value, defs[k]) == (if want.Enables(defs[k]) then [want.Entry(defs[k])] else [])
            && Foreign(after.value, defs, event) == Foreign(Entries(hooks, event).value, defs, event)
  {
    hide *;
    var event := defs[k].event;
    var entries := Entries(hooks, event).value;
    SyncedEntries(hooks, defs, want, event);
    SyncedMatching(entries, defs, event, want, k);
    SyncedForeign(entries, defs, event, want);
  }

  ghost predicate NoEmpty(hooks: Hooks) {
    forall event | event in hooks :: hooks[event] != JArray([])
  }

  /** Hooks without empty arrays are determined by the entries of each event and by the values that are not arrays. */
  lemma SameHooks(a: Hooks, b: Hooks)
    requires NoEmpty(a) && NoEmpty(b)
    requires forall event ::
               Entries(a, event) == Entries(b, event) && (Entries(a, event).None? ==> a[event] == b[event])
    ensures a == b
  {
    forall event ensures (event in a) == (event in b) && (event in a ==> a[event] == b[event]) {
      assert Entries(a, event) == Entries(b, event);
    }
  }

  lemma SyncedHasNoEmpty(hooks: Hooks, defs: seq<HookDef>, want: Wanted)
    ensures NoEmpty(Synced(hooks, defs, want))
  {
  }

  /** The entries of an event after a second synchronisation: those it could not recognise are there twice. */
  lemma SyncedTwice(hooks: Hooks, defs: seq<HookDef>, want: Wanted, event: string)
    requires Separate(defs) && Entries(hooks, event).Some?
    ensures var once, twice := Synced(hooks, defs, want), Synced(Synced(hooks, defs, want), defs, want);
            var entries, own := Entries(hooks, event).value, Own(defs, event, want);
            && Entries(once, event) == Some(Foreign(entries, defs, event) + own)
            && Entries(twice, event) == Some(Foreign(entries, defs, event) + Foreign(own, defs, event) + own)
  {
    hide Foreign, Own, Synced;
    var entries, own := Entries(hooks, event).value, Own(defs, event, want);
    SyncedEntries(hooks, defs, want, event);
    SyncedEntries(Synced(hooks, defs, want), defs, want, event);
    ForeignConcat(Foreign(entries, defs, event), own, defs, event);
    ForeignTwice(entries, defs, event);
  }

  lemma SameOnlyIfNone(a: seq<Json>, b: seq<Json>, c: seq<Json>)
    ensures a + c == a + b + c <==> b == []
  {
    assert |a + b + c| == |a| + |b| + |c|;
    assert a + [] + c == a + c;
  }

  /** Synchronising twice is synchronising once, exactly when every enabled definition whose event can hold entries
      writes a command that names the hook binary. */
  lemma SyncIsIdempotent(hooks: Hooks, defs: seq<HookDef>, want: Wanted)
    requires Separate(defs)
    ensures Synced(Synced(hooks, defs, want), defs, want) == Synced(hooks, defs, want) <==>
              forall event | Entries(hooks, event).Some? :: AllRecognised(defs, event, want)
  {
    hide Foreign, Own, Synced, Recognised, AllRecognised;
    var once, twice := Synced(hooks, defs, want), Synced(Synced(hooks, defs, want), defs, want);
    forall event
      ensures Entries(hooks, event).None? ==>
                Entries(once, event).None? && Entries(twice, event).None? && once[event] == twice[event]
      ensures Entries(hooks, event).Some? ==>
                (Entries(once, event) == Entries(twice, event) <==> AllRecognised(defs, event, want))
      ensures Entries(hooks, event).Some? ==> Entries(once, event).Some? && Entries(twice, event).Some?
    {
      if Entries(hooks, event).Some? {
        SyncedTwice(hooks, defs, want, event);
        OwnForeign(defs, event, want);
        var own := Own(defs, event, want);
        SameOnlyIfNone(Foreign(Entries(hooks, event).value, defs, event), Foreign(own, defs, event), own);
      } else {
        SyncedEntries(hooks, defs, want, event);
        SyncedEntries(once, defs, want, event);
      }
    }
    SyncedHasNoEmpty(hooks, defs, want);
    SyncedHasNoEmpty(once, defs, want);
    if forall event | Entries(hooks, event).Some? :: AllRecognised(defs, event, want) {
      SameHooks(once, twice);
    }
  }

  // ---------- Cleaning up ----------

  lemma {:induction false} StripConcat(a: seq<Json>, b: seq<Json>)
    ensures Strip(a + b) == Strip(a) + Strip(b)
  {
    hide IsCcpanesHookEntry;
    if a == [] {
      assert a + b == b;
    } else {
      StripConcat(a[1..], b);
      ConcatHead(a, b);
      ConcatAssociates(if IsCcpanesHookEntry(a[0]) then [] else [a[0]], Strip(a[1..]), Strip(b));
    }
  }

  lemma MatchedIsCcpanes(entry: Json, def: HookDef)
    ensures MatchesDef(entry, def) ==> IsCcpanesHookEntry(entry)
  {
  }

  /** Definitions only recognise cc-panes entries, so stripping those afterwards makes no difference. */
  lemma {:induction false} StripWithout(entries: seq<Json>, def: HookDef)
    ensures Strip(Without(entries, def)) == Strip(entries)
  {
    if entries != [] {
      hide MatchesDef, IsCcpanesHookEntry;
      StripWithout(entries[1..], def);
      var head := if MatchesDef(entries[0], def) then [] else [entries[0]];
      StripConcat(head, Without(entries[1..], def));
      assert MatchesDef(entries[0], def) ==> IsCcpanesHookEntry(entries[0]) by { MatchedIsCcpanes(entries[0], def); }
      assert Strip(head) == if IsCcpanesHookEntry(entries[0]) then [] else [entries[0]];
    }
  }

  lemma {:induction false} StripForeign(entries: seq<Json>, defs: seq<HookDef>, event: string)
    ensures Strip(Foreign(entries, defs, event)) == Strip(entries)
  {
    hide Strip, Without;
    if defs != [] {
      var n := |defs| - 1;
      StripForeign(entries, defs[..n], event);
      StripWithout(Foreign(entries, defs[..n], event), defs[n]);
    }
  }

  lemma {:induction false} StripAll(entries: seq<Json>)
    requires forall i | 0 <= i < |entries| :: IsCcpanesHookEntry(entries[i])
    ensures Strip(entries) == []
  {
    hide IsCcpanesHookEntry;
    if entries != [] {
      StripAll(entries[1..]);
    }
  }

  lemma {:induction false} StripMembers(entries: seq<Json>, x: Json)
    ensures x in Strip(entries) <==> x in entries && !IsCcpanesHookEntry(x)
    decreases |entries|
  {
    hide IsCcpanesHookEntry;
    if entries != [] {
      assert entries == [entries[0]] + entries[1..];
      StripMembers(entries[1..], x);
    }
  }

  /** Cleaning takes all of the entries written exactly when all of them name the hook binary. */
  lemma StripOwn(defs: seq<HookDef>, event: string, want: Wanted)
    ensures Strip(Own(defs, event, want)) == [] <==> AllRecognised(defs, event, want)
  {
    hide IsCcpanesHookEntry, Strip, Own, NamesHookBinary;
    var own := Own(defs, event, want);
    if AllRecognised(defs, event, want) {
      OwnComesFrom(defs, event, want);
      forall i | 0 <= i < |own| ensures IsCcpanesHookEntry(own[i]) {
        assert own[i] in own && WrittenFor(own[i], defs, event, want);
        var j :| 0 <= j < |defs| && own[i] == want.Entry(defs[j]) && defs[j].event == event && want.Enables(defs[j]);
        EntryReads(want, defs[j]);
      }
      StripAll(own);
    } else {
      var j :| 0 <= j < |defs| && defs[j].event == event && want.Enables(defs[j]) && !Recognised(want, defs[j]);
      EntryReads(want, defs[j]);
      OwnHas(defs, event, want, j);
      StripMembers(own, want.Entry(defs[j]));
    }
  }

  /** What is left of an event after cleaning. */
  lemma CleanedEntries(hooks: Hooks, event: string)
    ensures match Entries(hooks, event)
            case None =>
              event in Cleaned(hooks) && Cleaned(hooks)[event] == hooks[event] && Entries(Cleaned(hooks), event) == None
            case Some(entries) => Entries(Cleaned(hooks), event) == Some(Strip(entries))
  {
    hide Strip, DropEmpty;
    var stripped := map e | e in hooks :: StripValue(hooks[e]);
    DropEmptyEntries(stripped, event);
    assert Strip([]) == [] by { StripAll([]); }
  }

  lemma CleanedHasNoEmpty(hooks: Hooks)
    ensures NoEmpty(Cleaned(hooks))
  {
  }

  /** Cleaning up undoes a synchronisation, leaving the user's own hooks as if only the cc-panes entries and empty
      arrays had been taken out of the original ones, exactly when every command that was written names the hook
      binary. */
  lemma CleanupUndoesSync(hooks: Hooks, defs: seq<HookDef>, want: Wanted)
    requires Separate(defs)
    ensures Cleaned(Synced(hooks, defs, want)) == Cleaned(hooks) <==>
              forall event | Entries(hooks, event).Some? :: AllRecognised(defs, event, want)
  {
    hide Strip, Own, Foreign, Synced, Cleaned, AllRecognised;
    var synced := Synced(hooks, defs, want);
    forall event
      ensures var a, b := Cleaned(synced), Cleaned(hooks);
              && (Entries(hooks, event).Some?
                  ==> (Entries(a, event) == Entries(b, event) <==> AllRecognised(defs, event, want)))
              && (Entries(hooks, event).None? ==> Entries(a, event) == Entries(b, event))
              && (Entries(a, event).None? ==> event in a && event in b && a[event] == b[event])
    {
      SyncedEntries(hooks, defs, want, event);
      CleanedEntries(hooks, event);
      CleanedEntries(synced, event);
      if Entries(hooks, event).Some? {
        var entries := Entries(hooks, event).value;
        StripConcat(Foreign(entries, defs, event), Own(defs, event, want));
        StripForeign(entries, defs, event);
        StripOwn(defs, event, want);
        SameOnlyIfNone(Strip(entries), Strip(Own(defs, event, want)), []);
        assert Strip(entries) + [] == Strip(entries);
        assert Strip(entries) + Strip(Own(defs, event, want)) + [] == Strip(entries) + Strip(Own(defs, event, want));
      }
    }
    if forall event | Entries(hooks, event).Some? :: AllRecognised(defs, event, want) {
      CleanedHasNoEmpty(hooks);
      CleanedHasNoEmpty(synced);
      SameHooks(Cleaned(synced), Cleaned(hooks));
    }
  }

  // ---------- The definitions of this repository ----------

  const EVENT_LENGTHS := [12, 12, 11, 16, 10, 4, 10, 12, 11, 10, 17]
  const FOURTH_LETTERS := "sstrTpCipsm"

  lemma EventShape(i: nat)
    requires i < 11
    ensures |HOOK_DEFS| == 11 && |HOOK_DEFS[i].event| == EVENT_LENGTHS[i] && HOOK_DEFS[i].event[3] == FOURTH_LETTERS[i]
  {
  }

  /** The length and the fourth letter tell all events but the two of `SessionStart` apart. */
  lemma EventLengths()
    ensures |HOOK_DEFS| == 11
    ensures forall i, j | 0 <= i < j < |HOOK_DEFS| && HOOK_DEFS[i].event == HOOK_DEFS[j].event :: i == 0 && j == 1
  {
    EventShape(0);
    forall i, j | 0 <= i < j < 11 && HOOK_DEFS[i].event == HOOK_DEFS[j].event ensures i == 0 && j == 1 {
      EventShape(i);
      EventShape(j);
    }
  }

  /** The definitions that ship never recognise each other's entries, current or legacy. */
  lemma HookDefsSeparate()
    ensures Separate(HOOK_DEFS)
  {
    EventLengths();
    forall i, j | 0 <= i < |HOOK_DEFS| && 0 <= j < |HOOK_DEFS| && i != j && HOOK_DEFS[i].event == HOOK_DEFS[j].event
      ensures HOOK_DEFS[i].matcher != HOOK_DEFS[j].matcher && HOOK_DEFS[i].matcher !in LegacyMatchers(HOOK_DEFS[j])
    {
      assert i + j == 1;
    }
  }

  /** A binary path that contains the hook's name makes every command recognisable, however it is quoted. */
  lemma NamedPathIsRecognised(defs: seq<HookDef>, event: string, want: Wanted)
    requires Contains(want.path, HOOK_BINARY_NAME)
    ensures AllRecognised(defs, event, want)
  {
    forall k | 0 <= k < |defs| ensures Recognised(want, defs[k]) {
      NameSurvives(want.path, HOOK_BINARY_NAME, defs[k].subcommand, want.shell);
    }
  }

  /** A renamed binary. */
  const RENAMED := Wanted(map[], "hook.exe", Windows)

  lemma NoFirstLetter(s: string, name: string)
    requires name != "" && forall i | 0 <= i < |s| :: s[i] != name[0]
    ensures !Contains(s, name)
  {
    forall i: nat ensures !OccursAt(s, name, i) {
      if i + |name| <= |s| { assert s[i..i + |name|][0] == s[i]; }
    }
  }

  lemma FailureHook()
    ensures |HOOK_DEFS| == 11 && HOOK_DEFS[8].event == "StopFailure" && HOOK_DEFS[8].subcommand == "error"
  {
  }

  lemma RenamedCommand()
    ensures BuildGuardedHookCommand("hook.exe", "error", Windows) == "if exist \"hook.exe\" \"hook.exe\" error"
  {
  }

  lemma RenamedIsNotRecognised()
    ensures HOOK_DEFS[8].event == "StopFailure" && RENAMED.Enables(HOOK_DEFS[8]) && !Recognised(RENAMED, HOOK_DEFS[8])
  {
    hide HOOK_DEFS, BuildGuardedHookCommand, Contains;
    FailureHook();
    RenamedCommand();
    var command := RENAMED.Command(HOOK_DEFS[8]);
    NoFirstLetter(command, HOOK_BINARY_NAME);
    NoFirstLetter(command, LEGACY_HOOK_BINARY_NAME);
  }

  /** What SyncIsIdempotent and CleanupUndoesSync ask for is needed: with a binary that was renamed, synchronising empty
      settings twice adds its entries twice, and cleaning leaves them there. */
  lemma RenamedBinaryStays()
    ensures Synced(Synced(map[], HOOK_DEFS, RENAMED), HOOK_DEFS, RENAMED) != Synced(map[], HOOK_DEFS, RENAMED)
    ensures Cleaned(Synced(map[], HOOK_DEFS, RENAMED)) != Cleaned(map[])
  {
    hide Synced, Cleaned, Recognised, Separate, Wanted.Enables;
    HookDefsSeparate();
    RenamedIsNotRecognised();
    assert Entries(map[], "StopFailure").Some? && !AllRecognised(HOOK_DEFS, "StopFailure", RENAMED);
    SyncIsIdempotent(map[], HOOK_DEFS, RENAMED);
    CleanupUndoesSync(map[], HOOK_DEFS, RENAMED);
  }

  // ---------- The settings file ----------

  datatype File = Absent | Unparsable | Present(settings: Json)

  datatype HookError = ParseFailed | RootNotAnObject | HooksNotAnObject | BinaryNotFound

  predicate AnyEnabled(defs: seq<HookDef>, want: Wanted) {
    exists i | 0 <= i < |defs| :: want.Enables(defs[i])
  }

  function WantedFor(desired: map<string, bool>, path: Option<string>, shell: Shell): Wanted {
    Wanted(desired, path.GetOr(""), shell)
  }

  /** The settings to start from, or why there are none. */
  function ReadSettings(file: File): Result<Json, HookError> {
    match file
    case Absent => Ok(JObject(map[]))
    case Unparsable => Err(ParseFailed)
    case Present(settings) => Ok(settings)
  }

  function SyncedSettings(
    file: File, desired: map<string, bool>, path: Option<string>, shell: Shell): Result<Json, HookError>
  {
    var want := WantedFor(desired, path, shell);
    var settings := ReadSettings(file);
    if settings.Err? then settings
    else if !settings.value.JObject? then Err(RootNotAnObject)
    else
      var hooks := settings.value.Get("hooks").GetOr(JObject(map[]));
      if !hooks.JObject? then Err(HooksNotAnObject)
      else if AnyEnabled(HOOK_DEFS, want) && path.None? then Err(BinaryNotFound)
      else Ok(JObject(settings.value.fields["hooks" := JObject(Synced(hooks.fields, HOOK_DEFS, want))]))
  }

  /** The hooks object of a settings document that has one. */
  function HooksOf(settings: Json): Option<Hooks> {
    var hooks := settings.Get("hooks");
    if hooks.Some? && hooks.value.JObject? then Some(hooks.value.fields) else None
  }

  predicate HasCcpanesEntries(hooks: Hooks) {
    exists event | event in hooks :: hooks[event].JArray? && |Strip(hooks[event].items)| != |hooks[event].items|
  }

  /** The settings after a clean-up that has something to remove. */
  function CleanedSettings(settings: Json): Option<Json> {
    var hooks := HooksOf(settings);
    if hooks.Some? && HasCcpanesEntries(hooks.value)
    then Some(JObject(settings.fields["hooks" := JObject(Cleaned(hooks.value))]))
    else None
  }

  class SettingsFile {
    var file: File

    constructor (file: File)
      ensures this.file == file
    {
      this.file := file;
    }

    /** Either the synchronised settings are written, or the file is left as it was. */
    method SyncProjectHooks(
      path: Option<string>, desired: map<string, bool>, shell: Shell) returns (r: Result<(), HookError>)
      modifies this
      ensures match SyncedSettings(old(file), desired, path, shell)
              case Ok(settings) => r.Ok? && file == Present(settings)
              case Err(error) => r == Err(error) && file == old(file)
    {
      hide SyncDef, NamesHookBinary;
      var want := WantedFor(desired, path, shell);
      var settings := ReadSettings(file);
      if settings.Err? {
        return Err(settings.error);
      }
      if !settings.value.JObject? {
        return Err(RootNotAnObject);
      }
      var original := settings.value.Get("hooks").GetOr(JObject(map[]));
      if !original.JObject? {
        return Err(HooksNotAnObject);
      }
      if AnyEnabled(HOOK_DEFS, want) && path.None? {
        return Err(BinaryNotFound);
      }
      var hooks := original.fields;
      for i := 0 to |HOOK_DEFS|
        invariant hooks == SyncDefs(original.fields, HOOK_DEFS[..i], want)
      {
        var def := HOOK_DEFS[i];
        assert HOOK_DEFS[..i + 1][..i] == HOOK_DEFS[..i];
        hooks := SyncDef(hooks, def, want);
      }
      assert HOOK_DEFS[..|HOOK_DEFS|] == HOOK_DEFS;
      hooks := DropEmpty(hooks);
      file := Present(JObject(settings.value.fields["hooks" := JObject(hooks)]));
      return Ok(());
    }

    /** Writes the cleaned settings if there is anything to remove; otherwise leaves the file as it was. */
    method CleanupProjectHooks() returns (r: Result<bool, HookError>)
      modifies this
      ensures old(file).Unparsable? ==> r == Err(ParseFailed) && file == old(file)
      ensures old(file).Absent? ==> r == Ok(false) && file == old(file)
      ensures old(file).Present? ==>
                match CleanedSettings(old(file).settings)
                case Some(cleaned) => r == Ok(true) && file == Present(cleaned)
                case None => r == Ok(false) && file == old(file)
    {
      hide Strip, DropEmpty;
      if file.Absent? {
        return Ok(false);
      }
      if file.Unparsable? {
        return Err(ParseFailed);
      }
      var hooks := HooksOf(file.settings);
      if hooks.None? {
        return Ok(false);
      }
      var changed := false;
      var stripped: Hooks := map[];
      var left := hooks.value.Keys;
      while left != {}
        invariant left <= hooks.value.Keys && stripped.Keys == hooks.value.Keys - left
        invariant forall event | event in stripped :: stripped[event] == StripValue(hooks.value[event])
        invariant changed <==> exists event | event in stripped ::
                    hooks.value[event].JArray? && |Strip(hooks.value[event].items)| != |hooks.value[event].items|
        decreases |left|
      {
        var event :| event in left;
        var value := hooks.value[event];
        if value.JArray? && |Strip(value.items)| != |value.items| {
          changed := true;
        }
        ghost var before := stripped;
        stripped := stripped[event := StripValue(value)];
        left := left - {event};
        assert forall e | e in before :: e in stripped;
        assert event in stripped;
      }
      assert stripped == map event | event in hooks.value :: StripValue(hooks.value[event]);
      if !changed {
        return Ok(false);
      }
      file := Present(JObject(file.settings.fields["hooks" := JObject(DropEmpty(stripped))]));
      return Ok(true);
    }
  }

  lemma NothingEnabled(defs: seq<HookDef>, event: string, want: Wanted)
    requires !AnyEnabled(defs, want)
    ensures AllRecognised(defs, event, want)
  {
  }

  lemma {:induction false} StripSame(entries: seq<Json>)
    ensures |Strip(entries)| <= |entries|
    ensures |Strip(entries)| == |entries| ==> Strip(entries) == entries
  {
    hide IsCcpanesHookEntry;
    if entries != [] {
      StripSame(entries[1..]);
      assert entries == [entries[0]] + entries[1..];
    }
  }

  lemma NothingToClean(hooks: Hooks)
    requires NoEmpty(hooks)
    ensures !HasCcpanesEntries(hooks) ==> Cleaned(hooks) == hooks
  {
    hide Strip;
    if !HasCcpanesEntries(hooks) {
      forall event | event in hooks ensures StripValue(hooks[event]) == hooks[event] {
        if hooks[event].JArray? { StripSame(hooks[event].items); }
      }
    }
  }

  /** File to file: after a synchronisation with a binary path that contains the hook's name, cleaning up leaves the
      original settings with the user's own hooks, and every other key as it was. */
  lemma CleanupRestoresSettings(file: File, desired: map<string, bool>, path: Option<string>, shell: Shell)
    requires SyncedSettings(file, desired, path, shell).Ok?
    requires path.Some? ==> Contains(path.value, HOOK_BINARY_NAME)
    ensures var original := ReadSettings(file).value;
            var synced := SyncedSettings(file, desired, path, shell).value;
            var hooks := original.Get("hooks").GetOr(JObject(map[])).fields;
            CleanedSettings(synced).GetOr(synced) == JObject(original.fields["hooks" := JObject(Cleaned(hooks))])
  {
    hide Synced, Cleaned, HasCcpanesEntries, AllRecognised, Contains;
    var want := WantedFor(desired, path, shell);
    var original := ReadSettings(file).value;
    var hooks := original.Get("hooks").GetOr(JObject(map[])).fields;
    var synced := Synced(hooks, HOOK_DEFS, want);
    HookDefsSeparate();
    forall event ensures AllRecognised(HOOK_DEFS, event, want) {
      if path.Some? {
        NamedPathIsRecognised(HOOK_DEFS, event, want);
      } else {
        NothingEnabled(HOOK_DEFS, event, want);
      }
    }
    CleanupUndoesSync(hooks, HOOK_DEFS, want);
    SyncedHasNoEmpty(hooks, HOOK_DEFS, want);
    NothingToClean(synced);
    assert original.fields["hooks" := JObject(synced)]["hooks" := JObject(Cleaned(synced))]
        == original.fields["hooks" := JObject(Cleaned(hooks))];
  }
}
