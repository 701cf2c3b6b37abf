# A verified model of the CC-Panes command-line core

CC-Panes runs coding-agent CLIs side by side.  This project models the parts of it whose correctness rests on
protocols, state and text machinery rather than on one visible branch, and proves what those parts are for.  The
program is written in Rust; nothing of it is executed here.  `dafny verify dfyconfig.toml` checks the whole project.

## What is modelled

**The resilient MCP proxy** (`McpModel`, `Mcp`, `ProxyModel`, `Proxy`, `ProxyTheorems`, `ProxyCatalogue`,
`ProxyScenarios`, `ProxyRetries`, `ProxyOwnSends`, `ProxyPosts`, `ProxyConnections`, `ProxyDrift`, `JsonRpcSelect`).  An
upstream CLI speaks JSON-RPC to a proxy, which speaks MCP over HTTP to an orchestrator that may restart, expire
sessions, lose answers or be unreachable.  The orchestrator and the network are an adversary: an arbitrary finite script
of answers, each with what happens on the wire, whether the request is carried out (then or at any later time), how long
it takes and whether a write of the cache file succeeds.  `Mcp.McpClient` and `Proxy.ProxyState` are classes with the
fields of the source, and every method is proved equal to a transition function on values in `McpModel` and
`ProxyModel`; the theorems are about those functions, over all input lines, all scripts and all cache files.  The main
ones: each upstream call is carried out at most once, and a result means exactly once; no catalogue change goes
unannounced to a client that lists after `initialized`, and for any other client the input lines on which one can are
characterised; the catalogue is never lost and `tools/list` then never fails; every request gets exactly one reply;
every message is posted to the endpoint just discovered, or to the last one connected to when none is.  The one
assumption is about the answers of the environment, told by the wire alone: a message that never left, and one answered
whole with status 404, has not been carried out, and one answered whole with success has (`ProxyPosts.HonestScript`); a
message lost on the way may be carried out or not, at any time.  That the proxy counts exactly these failures as safe to
repeat is proved (`McpModel.SendMeaning`), and `ProxyScenarios.LyingServerExecutesTwice` shows that the assumption is
needed.

**Checkpoint throttling** (`CheckpointMonitor`): the table of last requests is pruned in every round and behaves as if
it never were.

**State keys** (`StateKey`): the FNV-1a hash and the hexadecimal prefix of a session id, with the 64-bit multiplication
written out modulo 2^64.

**Offline reconciliation** (`OfflineDb`): compare-and-swap updates in a loop inside one transaction, with the exact set
of rows that change.

**Hook commands and hook settings** (`HookCommand`, `ClaudeHooks`): quoting of a path for a POSIX shell, read back by a
reader for the words of XCU section 2.2; synchronising the hook definitions into a user's settings and taking them out
again.

**Masking of secrets** (`Masking`, `MaskingPipeline`, `MaskingInput`, `MaskingValues`): the cursor scans, proved equal
to a replacement of segments, and their sequence, which leaves behind every needle an empty value or three stars, unless
the text has a `Bearer` value that a comma ends: then the comma can stay with the stars.  Where each kind of value ends
is also said character by character, and what becomes of a text with one secret, without the machinery of the scans.

**Version directories** (`Versions`): the comparison, when it is an order, and the nvm listing.

**The bounded head reader** (`Utf8`, `HeadReader`): a chunked read with a limit in lines and one in bytes, against
RFC 3629.

**The memory index** (`MemoryTable`, `MemoryRepository`): a table, the three triggers that maintain its full-text index,
and searching through it.

**Trust entries** (`TrustModel`, `TrustTheorems`, `Trust`): what is written into a user's Codex configuration before a
session, and what the clean-up takes back.

`Common` and `Text` hold the values and string operations the others share.

## What was found

Some properties one would expect do not hold without a condition.  Each is proved with its exact condition, and where
that is not obvious there is a concrete input that breaks it:

- A client that lists the tools before it sends `notifications/initialized` can be left with an outdated catalogue
  (`ProxyScenarios.EarlyListerCanMissAChange`); `ProxyCatalogue.NoMissedChange` says exactly when, for a run, and
  `ProxyDrift.MissableInputs` says for which input lines some orchestrator can bring it about: those with a message
  passed on after the listing and before `initialized`, and no listing since.
- A message need not go to the last endpoint that was ever discovered: when a new one cannot be connected to and then
  none is found, calls go to the old one (`ProxyScenarios.OldEndpointIsUsed`; `ProxyPosts.EveryMessageIsAimed` says
  exactly where messages go).
- After an uncertain outcome the connection is dropped, but not when it is the second send of a notification that ended
  so (`ProxyConnections.NotificationLeaves`); for requests it always is (`ProxyConnections.RunLeaves`).
- Reconciling by plan path twice can mark more rows the second time, because marking a leader makes it the latest one
  (`OfflineDb.SecondRunByPlanCanMarkMore`).  `OfflineDb.SecondRunByPlan` says for exactly which tables this cannot
  happen, whatever later time stamps the first run gives.  Stamps have milliseconds, so two rows of one run can tie, and
  then not even the last leader marked need be the next one (`OfflineDb.TiedStampsCanMarkMore`).
- Masking can leave a value that is not stars alone: a comma that follows a `Bearer` value is taken for part of the value
  when the text is read again (`MaskingPipeline.CommaCanStay`).  It never happens to a text in which no comma ends a
  `Bearer` value behind `authorization=` or `auth=` (`MaskingInput.StarsByInput`), and in a text where no other needle
  meddles it happens exactly if a comma ends one (`MaskingInput.StarsExactly`).  Other needles can mask the comma away
  (`MaskingInput.CommaCanGo`).
- Masking `authorization=` and `auth=` is idempotent exactly on the texts in which no comma follows a `Bearer` value
  (`Masking.BearerMaskIsIdempotentWithoutComma`).
- Version names that mix digits and letters can make the comparison turn in a circle (`Versions.MixedNamesCycle`);
  `Versions.OrderlyWithoutStraddlers` says exactly which sets of names are ordered.
- Hook synchronisation is idempotent, and undone by the clean-up, exactly if every command it writes names the hook
  binary, for which a binary path that contains the name suffices; with a renamed binary neither holds
  (`ClaudeHooks.RenamedBinaryStays`).
- An update of a memory with an importance out of range fails after it has written the title, the content and the
  category (`MemoryRepository.UpdateMeaning`); `cc-memory/src/service.rs:120-124` keeps callers from reaching that.
- Cleaning up restores a trust configuration exactly if nothing in it was marked, no stale server was registered, and no
  targeted project is an inline table, an empty table, or a new entry of an inline table
  (`TrustTheorems.CleanupUndoesPrewrite`; `TrustTheorems.InlineTrustStays` is a document that does not come back).
- No message causes more than two sends of a method, exactly for the methods the proxy does not use itself: reconnecting
  sends `initialize`, `notifications/initialized` and `tools/list` as often as it must (`ProxyRetries.TwoSendsExactly`,
  `ProxyRetries.ControlMethodsSentThrice`).  Of the messages with such a method, the bound can be exceeded for exactly
  those that make the proxy connect (`ProxyOwnSends.ExceedsExactly`).

The branch of the proxy that reports a missing client after a successful `ensure_connected` cannot be reached; the model
has no such branch, and the contract of `ProxyModel.EnsureConnected` shows why it needs none.

## Model

| member | source | states |
|---|---|---|
| JsonRpcSelect.SelectsFirst | cc-panes-ctl/src/mcp.rs:381-424 | what is selected from a body, single, batch or stream, is the first of its values with the expected id, and nothing is selected exactly if there is none |
| JsonRpcSelect.FirstMatch | cc-panes-ctl/src/mcp.rs:426-451 | selection from a batch gives the first value with the expected id, and fails only if there is none |
| JsonRpcSelect.IdOfResponse | cc-panes-ctl/src/mcp.rs:449-451 | a response is the one expected exactly if it is an object whose `id` is that very number |
| JsonRpcSelect.NormalizedStream | cc-panes-ctl/src/mcp.rs:399 | a stream of events with CRLF line ends normalizes to the same stream with LF |
| JsonRpcSelect.FrameData | cc-panes-ctl/src/mcp.rs:401-406 | the data lines of an event give back the serialized value framed in it |
| JsonRpcSelect.DataReadsBack | cc-panes-ctl/src/mcp.rs:401-406 | data over several lines, with either line end and any white space in front, gives back those lines |
| JsonRpcSelect.StreamSelects | cc-panes-ctl/src/mcp.rs:400-419 | splitting a stream at blank lines and scanning it finds the first framed value whose id matches |
| JsonRpcSelect.SseAndBatchAgree | cc-panes-ctl/src/mcp.rs:381-451 | framing values as events (LF or CRLF) and sending them as a batch select the same response, or fail together |
| McpModel.SendMeaning | cc-panes-ctl/src/mcp.rs:250-354 | told by the wire alone: which failures mean that nothing was executed (no connection made, or a 404 received whole by a client with a session), which leave it open (a timeout, a broken answer, a lost body, another I/O error), and that exactly a whole answer with status 2xx gives a result, which is its body; which session id is adopted |
| McpModel.RequestMeaning | cc-panes-ctl/src/mcp.rs:216-239 | a request posts its own message once, with the outcome it reports, or nothing exactly if the URL is invalid; it succeeds exactly if the response selected by its own id has a result and no error, and with that result; its id is not used again; an expired session is a 404 to a client that has one; a protocol error is an error in that response or an invalid URL, and an invalid response a whole answer without such a response or with neither in it |
| McpModel.HandshakeMeaning | cc-panes-ctl/src/mcp.rs:118-138 | a handshake that succeeds has posted `initialize` and `notifications/initialized`, in that order and nothing else, and adopted the version the server named, else the requested one |
| McpModel.FreshHandshake | cc-panes-ctl/src/mcp.rs:76-138 | a new client sends its first message without a session id and the second one with the id it was then given, both to its own endpoint, and speaks the default version unless the sides named one |
| McpModel.PageMeaning | cc-panes-ctl/src/mcp.rs:164-181 | a page must hold an array of tools, and names the next page exactly by a string that is not empty |
| McpModel.PageFails | cc-panes-ctl/src/mcp.rs:164-173 | a page without an array of tools fails as an answer that leaves open what happened, any other as its request did |
| McpModel.ListToolsValue | cc-panes-ctl/src/mcp.rs:152-183 | the result is the catalogue of all pages that were logged, in order, and a failed listing leaves the last whole one |
| McpModel.RequestMethod | cc-panes-ctl/src/mcp.rs:199-202 | relaying a request adds that request to the relayed messages, or nothing when it failed |
| McpModel.NotificationMethod | cc-panes-ctl/src/mcp.rs:204-207 | relaying a notification adds that notification to the relayed messages, or nothing when it failed |
| Mcp.McpClient.Send | cc-panes-ctl/src/mcp.rs:250-310 | the client object posts, classifies the outcome and adopts a session id as `McpModel.Send`, whose meaning is `McpModel.SendMeaning` |
| Mcp.McpClient.Request | cc-panes-ctl/src/mcp.rs:216-239 | the object's request is the specified one, with ids counted up in place |
| Mcp.McpClient.InitializeWith | cc-panes-ctl/src/mcp.rs:118-138 | the object's handshake is the specified one |
| Mcp.McpClient.ListToolsValue | cc-panes-ctl/src/mcp.rs:152-183 | the page loop accumulates what the recursive specification lists |
| Mcp.McpClient.RequestMethod | cc-panes-ctl/src/mcp.rs:199-202 | the object's relayed request is the specified one |
| Mcp.McpClient.NotificationMethod | cc-panes-ctl/src/mcp.rs:204-207 | the object's relayed notification is the specified one |
| ProxyModel.InstallTools | cc-panes-ctl/src/proxy.rs:409-424 | the held catalogue becomes the listed one, a change is left pending for an initialized client, and the cache file follows unless a write failed |
| ProxyModel.ConnectEndpoint | cc-panes-ctl/src/proxy.rs:274-293 | a failed connection leaves the proxy as it was; the invariant holds either way |
| ProxyModel.EnsureConnected | cc-panes-ctl/src/proxy.rs:262-272 | success means there is a client; failure changes nothing and is reported as no connection |
| ProxyPosts.ConnectionIsToTheDiscovered | cc-panes-ctl/src/proxy.rs:262-293 | with an endpoint discovered, success means that the client is connected to that very endpoint: the held one if it is there already, with nothing posted, and else a new connection; with none discovered, a held client is kept, nothing is posted, and success means that there is one |
| ProxyModel.ConnectForInitialize | cc-panes-ctl/src/proxy.rs:250-260 | it gives up only with a cached catalogue to stand in or after the deadline |
| ProxyModel.RefreshToolsWithReconnect | cc-panes-ctl/src/proxy.rs:295-326 | a refresh relays nothing, keeps the invariant, and success means a catalogue is held |
| ProxyModel.HandleToolsList | cc-panes-ctl/src/proxy.rs:215-235 | the reply is the held catalogue, and an error only if none is held |
| ProxyTheorems.InitializeMeaning | cc-panes-ctl/src/proxy.rs:152-200 | malformed parameters are refused and change nothing; otherwise the reply names the requested version and announces `listChanged`, or is an error, only after the deadline and with no catalogue to show |
| Proxy.ProxyState.constructor | cc-panes-ctl/src/proxy.rs:74-96 | a new proxy starts from the cache file |
| Proxy.ProxyState.InstallTools | cc-panes-ctl/src/proxy.rs:409-424 | the fields and the cache file change as specified |
| Proxy.ProxyState.ConnectEndpoint | cc-panes-ctl/src/proxy.rs:274-293 | the object connects as specified, through a client object of its own |
| Proxy.ProxyState.EnsureConnected | cc-panes-ctl/src/proxy.rs:262-272 | the object connects exactly as `ProxyModel.EnsureConnected`, whose meaning is `ProxyPosts.ConnectionIsToTheDiscovered` |
| Proxy.ProxyState.ConnectForInitialize | cc-panes-ctl/src/proxy.rs:250-260 | the waiting loop ends in the specified state |
| Proxy.ProxyState.RefreshToolsWithReconnect | cc-panes-ctl/src/proxy.rs:295-326 | one reconnection and one replay, as specified |
| Proxy.ProxyState.ForwardRequest | cc-panes-ctl/src/proxy.rs:328-367 | the fields, the log and the result are those of the specified exchange |
| Proxy.ProxyState.ForwardNotification | cc-panes-ctl/src/proxy.rs:369-394 | the fields, the log and the result are those of the specified exchange |
| Proxy.ProxyState.HandleInitialize | cc-panes-ctl/src/proxy.rs:152-200 | the object answers `initialize` as specified |
| Proxy.ProxyState.HandleNotification | cc-panes-ctl/src/proxy.rs:202-213 | the object handles a notification as specified |
| Proxy.ProxyState.HandleToolsList | cc-panes-ctl/src/proxy.rs:215-235 | the object answers `tools/list` as specified |
| Proxy.ProxyState.HandleMessage | cc-panes-ctl/src/proxy.rs:102-150 | the object dispatches a message and flushes what is pending as specified |
| Proxy.RunStream | cc-panes-ctl/src/proxy.rs:443-473 | for all input, the loop writes the concatenated output groups of the specified run |
| ProxyTheorems.RunInvariant | cc-panes-ctl/src/proxy.rs:262-326 | in every reached state: client iff active endpoint, an installed client is initialized, the generation counts the completed handshakes, the held catalogue is the last complete listing or the cached one |
| ProxyTheorems.RestartRecoversCatalogue | cc-panes-ctl/src/proxy.rs:475-511 | a proxy started on the cache file a run left holds the same catalogue, unless the last write failed |
| ProxyTheorems.CacheMeaning | cc-panes-ctl/src/proxy.rs:475-480 | a cache file is used exactly if it has version 1 and holds an array of tools |
| ProxyTheorems.CacheFollows | cc-panes-ctl/src/proxy.rs:409-424 | the cache file is written exactly for a catalogue that is not held yet, and a write that fails leaves it as it was |
| ProxyTheorems.CatalogueNeverLost | cc-panes-ctl/src/proxy.rs:409-429 | once held, a catalogue is held after any further input and answers |
| ProxyTheorems.ForwardRequestSends | cc-panes-ctl/src/proxy.rs:328-367 | a request is sent at most twice, unchanged, the second time only after a failure known to precede execution, and its result accounts for its sends |
| ProxyTheorems.ForwardNotificationSends | cc-panes-ctl/src/proxy.rs:369-394 | a notification is sent at most twice, unchanged, the second time only after a failure known to precede execution; success means that the last send was accepted, and an error tells how the sends failed |
| ProxyTheorems.RunSends | cc-panes-ctl/src/proxy.rs:443-473 | over every run, the messages sent on are exactly those the input line and its reply account for |
| ProxyTheorems.AtMostOnce | cc-panes-ctl/src/proxy.rs:328-367 | over every run whose relayed messages met an honest environment, every upstream message is carried out at most once, with its own method and parameters, late executions included; honesty speaks of the wire alone |
| ProxyTheorems.ReplyMeaning | cc-panes-ctl/src/proxy.rs:396-407 | a result reply means exactly one execution, with that result; an error that precedes execution means none; a message or answer lost on the way is always reported as an uncertain outcome |
| ProxyPosts.HonestScriptSuffices | cc-panes-ctl/src/mcp.rs:250-354 | the honesty assumed follows from that of the answers the environment gives, whatever the proxy does with them |
| ProxyPosts.AtMostOnceIfHonest | cc-panes-ctl/src/proxy.rs:328-407 | for every script of honest answers: at most one execution of each upstream message, and the reply says truly what became of it |
| ProxyPosts.EveryMessageIsAimed | cc-panes-ctl/src/proxy.rs:262-293 | over every run, every handshake goes to the endpoint just discovered, and every other message to that of the last completed handshake, which is the one just discovered unless none was |
| ProxyConnections.NothingIsSwallowed | cc-panes-ctl/src/proxy.rs:202-394 | a message to be passed on is sent exactly if there is a connection with a valid URL, and sent again, if it was not carried out, unless there is no new connection to be had or its URL is not valid |
| ProxyConnections.RunLeaves | cc-panes-ctl/src/proxy.rs:152-407 | over every run, a relayed request whose outcome stays open leaves no connection, and one that is settled leaves one; a well-formed `initialize` leaves none but a new one |
| ProxyConnections.NotificationLeaves | cc-panes-ctl/src/proxy.rs:369-394 | a relayed notification whose outcome stays open leaves no connection if it was sent once, and keeps the new one if it was sent again |
| ProxyConnections.ListingLeaves | cc-panes-ctl/src/proxy.rs:295-326 | a listing for the client leaves no connection if the outcome of its first attempt stays open, and keeps it after a settled one |
| ProxyConnections.CacheSparesWaiting | cc-panes-ctl/src/proxy.rs:170-260 | with a catalogue held, `initialize` tries to connect once, does not wait, and succeeds |
| ProxyRetries.ControlMethodsSentThrice | cc-panes-ctl/src/proxy.rs:250-260 | a run in which one message has each of `initialize`, `notifications/initialized` and `tools/list` sent three times |
| ProxyRetries.TwoSendsExactly | cc-panes-ctl/src/proxy.rs:328-394 | over all configurations, scripts, cache files and inputs, a method is sent at most twice for any message exactly if it is not one of the proxy's own |
| ProxyOwnSends.ExceedsExactly | cc-panes-ctl/src/proxy.rs:202-326 | some run sends a message's own method more than twice while it handles the message, exactly if the message is a `tools/list` with or without an id, an `initialize` that starts a session or has no id, or a `notifications/initialized` with an id |
| ProxyCatalogue.ReplyDiscipline | cc-panes-ctl/src/proxy.rs:102-150 | over every run, an object with an id gets exactly one reply, with that id and last in its group; one without gets none; other lines get one null-id error, and blank lines nothing; each error has the code of its cause, and only a tool call is said to have side effects |
| ProxyCatalogue.NothingBeforeInitialized | cc-panes-ctl/src/proxy.rs:135-149 | no `list_changed` is written unless `initialized` has come since the latest well-formed `initialize` |
| ProxyCatalogue.NoMissedChange | cc-panes-ctl/src/proxy.rs:409-424 | a client that listed after `initialized` never holds an outdated catalogue unannounced; for any client, exactly when a change is missed |
| ProxyCatalogue.RequestFlushes | cc-panes-ctl/src/proxy.rs:135-149 | every request with a method delivers a pending `list_changed` |
| ProxyCatalogue.RunBegun | cc-panes-ctl/src/proxy.rs:124-126 | requests are let through exactly after some well-formed `initialize` |
| ProxyCatalogue.ToolsListAlwaysAnswers | cc-panes-ctl/src/proxy.rs:215-235 | with a catalogue held, `tools/list` never fails and returns the last complete listing, or the cached one |
| ProxyScenarios.EarlyListerCanMissAChange | cc-panes-ctl/src/proxy.rs:202-206 | a run in which a client that listed too early is left with an outdated catalogue |
| ProxyScenarios.OldEndpointIsUsed | cc-panes-ctl/src/proxy.rs:262-272 | a run in which a call goes to the old endpoint although a newer one was discovered before |
| ProxyDrift.MissableInputs | cc-panes-ctl/src/proxy.rs:202-206 | some orchestrator and cache file make a client with these input lines miss a change, exactly if the lines hold a message passed on after its listing and before `initialized`, with no listing since |
| ProxyDrift.MissedNeedsRoom | cc-panes-ctl/src/proxy.rs:409-424 | whatever the parser and the URLs, a change is missed only on such lines |
| ProxyScenarios.LyingServerExecutesTwice | cc-panes-ctl/src/mcp.rs:292-301 | a run in which a server that executes and then reports an expired session executes twice |
| CheckpointMonitor.Monitor.SelectThrottled | cc-panes-daemon/src/checkpoint_monitor.rs:28-50 | selection and table are those of pruning and then filtering in order |
| CheckpointMonitor.Monitor.Scan | cc-panes-daemon/src/checkpoint_monitor.rs:53-69 | the scan loop publishes the specified requests, round by round |
| CheckpointMonitor.PruningIsUnobservable | cc-panes-daemon/src/checkpoint_monitor.rs:35-39 | over any rounds in order of time, the pruned table publishes exactly what a never-pruned one would |
| CheckpointMonitor.PublishedExactlyWhenDue | cc-panes-daemon/src/checkpoint_monitor.rs:28-50 | a session is requested exactly when it is a candidate and was not requested less than the throttle ago |
| CheckpointMonitor.PublishedOnce | cc-panes-daemon/src/checkpoint_monitor.rs:28-50 | with a positive throttle no round requests a session twice |
| CheckpointMonitor.RequestsAreSpaced | cc-panes-daemon/src/checkpoint_monitor.rs:28-50 | two requests for one session are at least the throttle apart |
| CheckpointMonitor.TableIsBounded | cc-panes-daemon/src/checkpoint_monitor.rs:35-39 | after a round the table holds only candidates and sessions inside their window |
| StateKey.PiManagedStateKey | cc-cli-adapters/src/pi.rs:88-100 | the byte loop computes the specified key |
| StateKey.MulInjective | cc-cli-adapters/src/pi.rs:92 | multiplying by the prime is injective modulo 2^64 |
| StateKey.MixInjective | cc-cli-adapters/src/pi.rs:90-93 | one round is injective in the hash and in the byte |
| StateKey.KnownHashes | cc-cli-adapters/src/pi.rs:89-93 | the hash of nothing and of one letter are the published values of FNV-1a |
| StateKey.KeyIsPathSafe | cc-cli-adapters/src/pi.rs:94-99 | every key has at most 121 characters, all lower-case letters, digits and dashes |
| StateKey.KeySpellsHash | cc-cli-adapters/src/pi.rs:94-99 | a key starts with `session-`, and its last sixteen characters spell the hash of the whole id |
| StateKey.KeyDetermines | cc-cli-adapters/src/pi.rs:94-99 | equal keys mean equal hashes and equal first 48 bytes |
| StateKey.ShortIdsGetOwnKeys | cc-cli-adapters/src/pi.rs:88-100 | an id below 48 bytes shares its key with no other id |
| StateKey.OneByteMakesAnotherKey | cc-cli-adapters/src/pi.rs:88-100 | ids of one length that differ in a single byte have different keys |
| OfflineDb.BindingsDb.ReconcileBindings | cc-panes-ctl/src/offline_db.rs:160-244 | a leader named by id is resolved exactly if a row has that id and the role of a leader, one named by plan to a leader of the plan than which none is later, and else the call is refused and changes nothing; exactly the lost rows of that leader become failed, are the ids returned, in order, and every other row stays; the compare-and-swap conflict cannot occur inside the transaction |
| OfflineDb.ResolvedById | cc-panes-ctl/src/offline_db.rs:330-343 | an id resolves to itself exactly if some row has it with the role of a leader |
| OfflineDb.ResolvedByPlan | cc-panes-ctl/src/offline_db.rs:344-355 | a plan path, plain or normalized, resolves to a leader of the plan than which no leader of the plan is later, and to nothing exactly if it has none |
| OfflineDb.BindingsDb.CloseBinding | cc-panes-ctl/src/offline_db.rs:103-158 | closing writes the terminal fields of one row, or an invalid request changes nothing |
| OfflineDb.CandidatesOrdered | cc-panes-ctl/src/offline_db.rs:160-244 | the candidates come in order of `sort_order` and creation |
| OfflineDb.ChangedRowIsRefused | cc-panes-ctl/src/offline_db.rs:204-218 | the compare-and-swap writes nothing if the row's time stamp or status is not as it was read |
| OfflineDb.TargetsInOrder | cc-panes-ctl/src/offline_db.rs:179-236 | the ids returned come in order of `sort_order`, and of creation among equals |
| OfflineDb.TargetsAreTouched | cc-panes-ctl/src/offline_db.rs:160-244 | the ids returned are exactly those of the rows in scope that are running or waiting without a live session |
| OfflineDb.RowsAfter | cc-panes-ctl/src/offline_db.rs:160-244 | row by row: a binding of the leader that runs or waits without a live session fails under the stamp of its turn, but keeps an exit code and a summary it had; every other row is untouched |
| OfflineDb.NothingLost | cc-panes-ctl/src/offline_db.rs:179-236 | afterwards every running or waiting row in scope has a live session, and nothing is left to mark |
| OfflineDb.SecondRunByLeader | cc-panes-ctl/src/offline_db.rs:160-244 | reconciling a leader again changes nothing |
| OfflineDb.SecondLeader | cc-panes-ctl/src/offline_db.rs:325-355 | with stamps later than the table, the second run resolves the same leader if the first marked no leader of the plan, else one it marked: the last, if the stamps increase |
| OfflineDb.SecondRunByPlan | cc-panes-ctl/src/offline_db.rs:204-355 | a second run by plan path changes nothing, whatever stamps later than the table the first one gave, exactly if every leader of the plan that the first run marks is the first leader or has no lost worker but the two of them; all of it is read off the rows before the first run |
| OfflineDb.SecondRunInOrder | cc-panes-ctl/src/offline_db.rs:325-355 | with stamps that increase from row to row, the second leader is the last one marked, and the run changes nothing exactly if that is the first leader or has no other lost worker |
| OfflineDb.TiedStampsCanMarkMore | cc-panes-ctl/src/offline_db.rs:204-212 | a table with two leaders marked at the same time, of which the last has no worker and the second run marks more all the same |
| OfflineDb.SecondRunBySameLeader | cc-panes-ctl/src/offline_db.rs:325-355 | whatever later stamps are given, a first run that marks no other leader of the plan is followed by one that changes nothing |
| OfflineDb.SecondRunByPlanCanMarkMore | cc-panes-ctl/src/offline_db.rs:325-355 | a table in which it does |
| HookCommand.QuoteRoundTrips | cc-cli-adapters/src/lib.rs:64 | for every path, the shell reads the quoted word as exactly that path, one word |
| HookCommand.GuardReadsBack | cc-cli-adapters/src/lib.rs:56-74 | the shell reads the guard as testing and running the same word, the path, with the subcommand as only argument |
| HookCommand.WindowsGuardReadsBack | cc-cli-adapters/src/lib.rs:56-74 | the Windows guard, cut at its double quotes, tests and runs the same quoted path with the subcommand behind it |
| HookCommand.NameSurvives | cc-cli-adapters/src/lib.rs:56-74 | a part of the path without quotes can be found in the command |
| HookCommand.BuiltCommandIsGuarded | cc-cli-adapters/src/lib.rs:76-79 | every command built is recognised as guarded |
| ClaudeHooks.SyncClosedForm | cc-cli-adapters/src/claude.rs:1046-1073 | after any definitions an event holds its foreign entries in their order, then those of its enabled definitions; nothing else changes |
| ClaudeHooks.SyncedEntries | cc-cli-adapters/src/claude.rs:1046-1077 | the same after empty arrays have been dropped |
| ClaudeHooks.SyncIsPrecise | cc-cli-adapters/src/claude.rs:582-640 | each enabled definition has exactly one matching entry, each disabled one none, and foreign entries keep their content and order |
| ClaudeHooks.EarlierEntriesAreOurs | cc-cli-adapters/src/claude.rs:601-640 | which entries of earlier versions, by matcher and command, count as those of the three definitions that have changed |
| ClaudeHooks.AnyCommandCounts | cc-cli-adapters/src/claude.rs:565-580 | an entry is one of ours if any of its commands runs the hook binary, old name or new |
| ClaudeHooks.EntryFields | cc-cli-adapters/src/claude.rs:1046-1063 | the entry written for a definition is a command with its timeout, and waited for exactly if it answers permission requests |
| ClaudeHooks.SyncIsIdempotent | cc-cli-adapters/src/claude.rs:1012-1077 | synchronising twice is synchronising once, exactly if all written commands can be recognised |
| ClaudeHooks.CleanupUndoesSync | cc-cli-adapters/src/claude.rs:1103-1140 | cleaning after synchronising leaves what cleaning alone would, exactly if all written commands can be recognised |
| ClaudeHooks.NamedPathIsRecognised | cc-cli-adapters/src/claude.rs:556-580 | a binary path with the hook's name makes every command recognisable |
| ClaudeHooks.RenamedBinaryStays | cc-cli-adapters/src/claude.rs:556-580 | with a renamed binary, synchronising empty settings twice adds the entries twice, and cleaning leaves them |
| ClaudeHooks.HookDefsSeparate | cc-cli-adapters/src/claude.rs:49-150 | the shipped definitions never recognise each other's entries, legacy matchers included |
| ClaudeHooks.SettingsFile.SyncProjectHooks | cc-cli-adapters/src/claude.rs:1012-1077 | the loop over the definitions writes the synchronised settings, or an error leaves the file as it was |
| ClaudeHooks.SettingsFile.CleanupProjectHooks | cc-cli-adapters/src/claude.rs:1103-1140 | the cleaned settings are written if there is something to remove, and reported |
| ClaudeHooks.CleanupRestoresSettings | cc-cli-adapters/src/claude.rs:1012-1140 | file to file: the clean-up restores the user's hooks and every other key |
| Masking.MaskValues | cc-cli-adapters/src/lib.rs:1481-1556 | both cursor scans end and compute the segment-wise replacement `Masking.Mask`; what that makes of a value is said by the rows of `MaskingValues` |
| Masking.ParseAssembles | cc-cli-adapters/src/lib.rs:1481-1530 | the segments of a text are well formed and make up the text |
| Masking.AssembleParses | cc-cli-adapters/src/lib.rs:1481-1530 | well-formed segments are the segments of the text they make up |
| Masking.MaskHidesValues | cc-cli-adapters/src/lib.rs:1481-1556 | the output depends only on the text outside values and on which values are empty |
| Masking.MaskIgnoresExchange | cc-cli-adapters/src/lib.rs:1481-1556 | exchanging values for any others of their kind leaves the output as it is |
| Masking.MaskLeavesNoValue | cc-cli-adapters/src/lib.rs:1481-1556 | in the output every occurrence of the needle, wherever it is, has behind it an empty value or exactly three stars, or, for the two needles with the Bearer rule, a value that begins with three stars and a comma |
| Masking.MaskLeavesStars | cc-cli-adapters/src/lib.rs:1481-1556 | after one pass every value of its needle is empty or three stars, exactly if no comma follows a Bearer value in the input |
| Masking.MaskIsIdempotent | cc-cli-adapters/src/lib.rs:1481-1556 | masking twice is masking once for every needle without the Bearer rule |
| Masking.BearerMaskIsIdempotentWithoutComma | cc-cli-adapters/src/lib.rs:1489-1506 | for the other two needles, exactly on the texts in which no comma follows a Bearer value |
| MaskingPipeline.PassKeeps | cc-cli-adapters/src/lib.rs:1466-1479 | masking one needle's values leaves every value behind another needle empty, three stars, or stars and a comma as above, and makes no new occurrence of one with any other value behind it |
| MaskingPipeline.RulesHarmonious | cc-cli-adapters/src/lib.rs:1468-1475 | the needles in use meet the hypotheses: none ends another, and each has its equals sign or blank only at its end |
| MaskingPipeline.CommaCanStay | cc-cli-adapters/src/lib.rs:1489-1506 | a text on which a comma stays |
| MaskingPipeline.MaskTokenValues | cc-cli-adapters/src/lib.rs:1466-1479 | after all passes each of the seven needles, wherever it stands in the output, has behind it an empty value, three stars or, for the two Bearer needles, a value that begins with three stars and a comma |
| MaskingInput.StarsByInput | cc-cli-adapters/src/lib.rs:1466-1506 | for every text in which no `authorization=` and no `auth=`, wherever it stands, has a `Bearer` value behind it that a comma ends, every value behind every needle is empty or three stars after all passes |
| MaskingInput.StarsExactly | cc-cli-adapters/src/lib.rs:1466-1556 | for every text whose only assignment needle is one of these two, with no `Bearer` in front of it outside its values, exactly then: every value is empty or three stars if and only if no comma follows a `Bearer` value in the text |
| MaskingInput.CommaCanGo | cc-cli-adapters/src/lib.rs:1489-1525 | a text in which a comma ends a `Bearer` value and every value becomes stars all the same |
| MaskingValues.EndingsWritten | cc-cli-adapters/src/lib.rs:1489-1556 | the characters that end a bare, a `Bearer` and a token value, listed, with the 25 white space characters |
| MaskingValues.BareValueMasked | cc-cli-adapters/src/lib.rs:1481-1530 | behind a needle a value up to the next ampersand, quote, white space or end of text becomes three stars, all of it and nothing more, and masking goes on behind it |
| MaskingValues.BearerValueMasked | cc-cli-adapters/src/lib.rs:1489-1506 | likewise a `Bearer` value behind `authorization=` or `auth=`, up to an ampersand, comma, quote, line end or end of text |
| MaskingValues.QuotedValueMasked | cc-cli-adapters/src/lib.rs:1507-1517 | likewise a value in quotes, up to the same quote or the end of the text |
| MaskingValues.TokenMasked | cc-cli-adapters/src/lib.rs:1532-1556 | likewise what follows the word `bearer`, up to an ampersand, comma, quote, white space or end of text |
| MaskingValues.NoValueStays | cc-cli-adapters/src/lib.rs:1518-1527 | where no value follows the needle nothing is written |
| MaskingValues.BareSecretHidden | cc-cli-adapters/src/lib.rs:1466-1556 | all seven passes over a text with one bare secret behind any of the six needles replace the secret by three stars and leave the rest |
| MaskingValues.BearerSecretHidden | cc-cli-adapters/src/lib.rs:1466-1556 | likewise for a `Bearer` secret behind one of the two needles |
| MaskingValues.QuotedSecretHidden | cc-cli-adapters/src/lib.rs:1466-1556 | likewise for a secret in quotes |
| MaskingValues.TokenHidden | cc-cli-adapters/src/lib.rs:1466-1556 | likewise for a secret behind the word `bearer` alone |
| Versions.CompareVersionDirNames | cc-cli-adapters/src/lib.rs:441-463 | the index loop computes the specified comparison |
| Versions.NameReads | cc-cli-adapters/src/lib.rs:442-447 | leading `v` and `V` do not count, however many, and the rest is its segments joined by dots, none of which holds one |
| Versions.NumeralsRead | cc-cli-adapters/src/lib.rs:454-457 | a decimal numeral, with or without a plus sign, is read as its number exactly if that fits into 64 bits |
| Versions.ComparedAtFirstDifference | cc-cli-adapters/src/lib.rs:450-462 | the result is that of the first position at which the names do not agree, missing segments counting as zero |
| Versions.CompareReverses | cc-cli-adapters/src/lib.rs:441-463 | swapping the names reverses the result, for all names |
| Versions.OrderlyWithoutStraddlers | cc-cli-adapters/src/lib.rs:455-458 | the comparison is a total preorder on a set of names exactly if no name in it straddles two others |
| Versions.NumberedOrder | cc-cli-adapters/src/lib.rs:441-463 | between names made of numbers it is the zero-padded lexicographic order of the numbers |
| Versions.NumberedOrderly | cc-cli-adapters/src/lib.rs:441-463 | names made of numbers are always ordered |
| Versions.MixedNamesCycle | cc-cli-adapters/src/lib.rs:455-458 | three names on which the comparison turns in a circle |
| Versions.NewestFirstIsStable | cc-cli-adapters/src/lib.rs:477-483 | versions that agree stay in the order in which they were found |
| Versions.ListingIsNewestFirst | cc-cli-adapters/src/lib.rs:468-489 | for ordered names the listing holds exactly the directories with a `bin`, each as often as it was found, none before a later version |
| Utf8.DecodeEncode | cc-panes-cli-hook/src/plan_archive.rs:310 | decoding the encoding of a text gives the text |
| Utf8.EncodeDecode | cc-panes-cli-hook/src/plan_archive.rs:310 | valid bytes are the encoding of what they decode to |
| HeadReader.ReadPlanHeadBounded | cc-panes-cli-hook/src/plan_archive.rs:282-311 | for every file and every schedule of reads the result is the head of the file, or nothing if a read failed; at most one byte beyond the limit is read |
| HeadReader.LimitIsShortest | cc-panes-cli-hook/src/plan_archive.rs:287-307 | the head is the shortest prefix with that many line ends, or the whole file if it has fewer |
| HeadReader.LimitOfEncoding | cc-panes-cli-hook/src/plan_archive.rs:300-306 | the line limit never falls inside a character |
| HeadReader.HeadOfText | cc-panes-cli-hook/src/plan_archive.rs:282-311 | the head of a file in UTF-8 is the text of its first 80 lines, or nothing if that takes more than 65536 bytes |
| HeadReader.HeadIsLocal | cc-panes-cli-hook/src/plan_archive.rs:282-311 | what follows the head does not matter, valid UTF-8 or not |
| MemoryTable.EntriesAt | cc-memory/src/db.rs:93-102 | a row's index entries are each token of its title, content and tags once, under its column and place, and nothing else |
| MemoryTable.UpdatedIndexes | cc-memory/src/db.rs:109-114 | the update trigger keeps every row's tokens, and nothing else, in the index |
| MemoryTable.UpdatedRows | cc-memory/src/repository.rs:100-130 | an update changes exactly the rows that meet its condition |
| MemoryTable.DeletedIndexes | cc-memory/src/db.rs:104-107 | so does the delete trigger, and exactly the rows that meet the condition go |
| MemoryTable.ExecuteKeepsValid | cc-memory/src/db.rs:62-114 | every statement, failing or not, keeps ids unique, importance in range and the index in step |
| MemoryTable.IndexIsRebuilt | cc-memory/src/db.rs:99-114 | after any statements the index equals one built anew from the table |
| MemoryRepository.UpdateMeaning | cc-memory/src/repository.rs:78-135 | the field-by-field update writes the whole request to one row, or fails exactly for an importance out of range, having written the fields before it |
| MemoryRepository.UpdateOfMissing | cc-memory/src/repository.rs:82-94 | updating a missing or deleted memory reports it and does nothing |
| MemoryRepository.DeleteMeaning | cc-memory/src/repository.rs:138-149 | deleting marks the live row of that id, stamps it and changes nothing else, and then no live row has the id |
| MemoryRepository.DeleteTwice | cc-memory/src/repository.rs:138-149 | deleting again changes nothing |
| MemoryRepository.DeletedIsNotFound | cc-memory/src/repository.rs:138-168 | after a deletion no search, by index, LIKE or filter, returns that id |
| MemoryRepository.TouchMeaning | cc-memory/src/repository.rs:241-250 | touching adds one to the access count of the row of that id, notes the time and changes nothing else |
| MemoryRepository.SearchIsScan | cc-memory/src/repository.rs:307-364 | the join with the index returns what filtering the live rows by their own tokens returns |
| MemoryRepository.SearchMeaning | cc-memory/src/repository.rs:152-168 | in every database the statements can produce, a search returns the page of exactly the wanted memories |
| MemoryRepository.MoreExactly | cc-memory/src/repository.rs:359-363 | `has_more` holds exactly if matching rows remain past the page |
| MemoryRepository.PagesAreComplete | cc-memory/src/repository.rs:422-472 | turning pages while more is announced yields every matching row once, in order |
| MemoryRepository.Repository.InsertRow | cc-memory/src/db.rs:99-102 | inserting adds the row and its tokens, or a broken constraint changes nothing |
| MemoryRepository.Repository.UpdateRows | cc-memory/src/db.rs:109-114 | the row-by-row update with its trigger is the specified statement, and tells whether a row was affected |
| MemoryRepository.Repository.Store | cc-memory/src/repository.rs:16-51 | storing is the specified insertion, with rendered tags |
| MemoryRepository.Repository.Update | cc-memory/src/repository.rs:78-135 | the statements issued one by one amount to the specified update |
| MemoryRepository.Repository.Delete | cc-memory/src/repository.rs:138-149 | it reports whether a live row had the id; that row is then marked deleted and stamped, every other row and column is as before, and no live row has the id |
| MemoryRepository.Repository.Touch | cc-memory/src/repository.rs:241-250 | the row of that id, deleted or not, has one access more, at that time, and all else is as before |
| MemoryRepository.Repository.FetchPage | cc-memory/src/repository.rs:350-363 | item `i` of the page is kept row `offset + i` of the ordered ones, each of which is there as often as in the table; there are at most `limit` of them, and `has_more` holds exactly if kept rows remain |
| MemoryRepository.Repository.SearchMemories | cc-memory/src/repository.rs:152-168 | the search goes through the index, falls back to LIKE, or only filters, as specified |
| TrustTheorems.MergedByKey | cc-cli-adapters/src/codex.rs:557-598 | merging goes key by key, fails exactly if a targeted project is not a table, and reports a change exactly if some targeted project had no trust level |
| TrustTheorems.CleanLoop | cc-cli-adapters/src/codex.rs:656-681 | cleaning goes entry by entry and reports a change exactly if there was a mark |
| TrustTheorems.ProjectsReverse | cc-cli-adapters/src/codex.rs:557-681 | cleaning gives back the projects exactly if none bore a mark and all targeted ones are reversible |
| TrustTheorems.CleanupUndoesPrewrite | cc-cli-adapters/src/codex.rs:645-703 | cleaning restores the file exactly if nothing was marked, no stale server was registered and all targeted projects are reversible |
| TrustTheorems.InlineTrustStays | cc-cli-adapters/src/codex.rs:645-703 | a document with an inline project that does not come back |
| TrustTheorems.PrewriteDecides | cc-cli-adapters/src/codex.rs:557-598 | afterwards every targeted project has a trust level: one that had none is `trusted`, marked where a comment can stand, with its other entries as before; an existing level and everything else is as before, and the call reports whether the file changed |
| TrustTheorems.PrewriteIsIdempotent | cc-cli-adapters/src/codex.rs:491-555 | writing trust again changes nothing and says so |
| TrustTheorems.CleanupTakesOnlyMarks | cc-cli-adapters/src/codex.rs:645-703 | cleaning takes the marked trust levels, projects left empty with them and a stale server, and nothing else |
| TrustTheorems.MarkGoes | cc-cli-adapters/src/codex.rs:656-681 | a project whose trust level carries the mark loses that entry alone, and goes if it has no other; any other project stays as it is |
| TrustTheorems.OldServerGoes | cc-cli-adapters/src/codex.rs:682-698 | a server `ccpanes` with an old address or the old token variable is taken out, and no other server |
| TrustTheorems.TargetsAreKeys | cc-cli-adapters/src/codex.rs:496-507 | the targets are the non-empty keys, each once, in order, and none outside yolo mode |
| Trust.Document.MergeTrustedProjects | cc-cli-adapters/src/codex.rs:557-598 | the loop over the keys edits the document as specified |
| Trust.Document.RemoveInjections | cc-cli-adapters/src/codex.rs:645-698 | the loop over the projects and the removal of the server edit the document as specified |
| Trust.ConfigFile.PrewriteTrustedProjects | cc-cli-adapters/src/codex.rs:491-555 | the file is replaced only by a document that changed |
| Trust.ConfigFile.RemoveCcpanesInjections | cc-cli-adapters/src/codex.rs:645-703 | the file is replaced only if something was removed |

## Left out

- The wire: HTTP headers, timeouts, TLS, the response size limit and the launch id in the URL.  JSON parsing and URL validity are arbitrary functions, and error message texts are replaced by constructors that carry what the text says.
- A tool listing whose cursors never end: scripts are finite, so every modelled listing ends.
- The width of the counters: request ids and the generation are unbounded here.
- Failures to write to standard output, and version strings in `serverInfo` and `clientInfo`.
- The atomic-write helpers, file locks and the race of several processes on the tools cache: a write succeeds or leaves the previous file.
- CheckpointMonitor.Monitor.Scan: models any finite number of rounds of an endless loop, and time as milliseconds that a theorem takes to be non-decreasing.
- The SQLite engine: errors of the database itself, the order of rows that tie, schema validation and the other columns of a row.
- OfflineDb.SecondRunByPlan: takes the stamps of a run to be later than every time in the table, which a clock that is set back does not give; they need not increase, and may tie.
- OfflineDb.SecondRunInOrder: takes the stamps of a run to increase from row to row, which stamps of one millisecond do not; OfflineDb.SecondRunByPlan does not take that.
- MaskingInput.StarsExactly: where several needles stand in one text, which values take in which needles is settled by the passes; of such texts only MaskingInput.StarsByInput speaks, and in one direction.
- ProxyDrift.MissableInputs: takes it that some URL and two bodies can be read as an answered handshake and a listing; without such answers nothing is ever listed, and ProxyDrift.MissedNeedsRoom still holds.
- ProxyPosts.HonestScript: takes every 404 that is received whole for a message that was not carried out, also one to a client without a session, which the proxy does not repeat.
- MaskingValues.BareSecretHidden: speaks of texts with one secret; with more of them each pass is described by the lemmas for one value, and all together by the rows of MaskingInput.
- OfflineDb.BindingsDb.ReconcileBindings: the list of live sessions is a parameter, and a time stamp is an arbitrary function of how many have been taken.
- ClaudeHooks.SettingsFile.SyncProjectHooks: the shell is a parameter, and removing old Python scripts from the project is not modelled; JSON objects compare without regard to key order.
- HookCommand.GuardReadsBack: the shell reader covers words, quotes, blanks and semicolons; anything that would be expanded reads as an error, so nothing is claimed of it.  Of the Windows form only HookCommand.WindowsGuardReadsBack speaks, for paths without double quotes.
- MaskingPipeline.MaskTokenValues: the truncation of long texts around it is not modelled.
- Versions.ListingIsNewestFirst: the library's stable sort is an insertion sort here, so for names that are not ordered the listing is one of those the library may give; names that are not Unicode are not modelled.
- HeadReader.ReadPlanHeadBounded: a file that does not change while it is read.
- The full-text engine: the tokenizer, the match expressions, LIKE and the orders of results are arbitrary functions; a match is decided by one row's entries, and a row without tokens never matches.
- The filter clauses of a memory query are one arbitrary predicate on memories, so that the theorems hold for every filter; the columns kept for synchronising are not modelled.
- Trust.ConfigFile.PrewriteTrustedProjects: the backup copy, the lock and the parsing and rendering of TOML are not modelled; a document keeps its entries in order, the suffix of a value and implicit tables, and no other layout.  A file that did not exist is left empty by the clean-up, not removed.
- TrustModel.Cleanup: which addresses count as old is an arbitrary predicate.
- The other adapters' argument assembly, the OpenCode deadline worker, notifications, session output storage, and all user interfaces: settled by reading one branch, or outside the modelled parts.
