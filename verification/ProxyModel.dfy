/** The resilient MCP proxy as a transition function: the specification of the class in Proxy.dfy. */
module ProxyModel {
  import opened Common
  import opened Text
  import opened McpModel

  const CACHE_VERSION: nat := 1

  /** Why a request failed, in place of the message text. */
  datatype Failure =
    | NotAnObject | MissingMethod | ParseError
    | NotInitialized | BadParams | MissingProtocol
    | NoEndpoint | NoParams | HandshakeFailed(kind: ErrorKind) | ListingFailed(kind: ErrorKind)
    | Uncertain(kind: ErrorKind, sideEffecting: bool) | CallFailed(kind: ErrorKind)
  {
    /** There was no connection to send on. */
    predicate Disconnected() {
      NoEndpoint? || NoParams? || HandshakeFailed? || ListingFailed?
    }
  }

  datatype Outgoing =
    | Reply(id: Json, result: Json)
    | ReplyError(id: Json, code: int, why: Failure)
    | ListChanged

  datatype Proxy = Proxy(
    cachedTools: Option<Json>,
    initializeParams: Option<Json>,
    upstreamProtocol: Option<string>,
    upstreamInitialized: bool,
    client: Option<Client>,
    activeEndpoint: Option<Endpoint>,
    generation: nat,
    pendingListChanged: bool)

  datatype Step<+T> = Step(p: Proxy, w: World, r: Result<T, Failure>)

  // ---------- Start-up and the tools cache ----------

  function LoadToolsCache(disk: Option<CacheFile>): Option<Json> {
    if disk.Some? && disk.value.version == CACHE_VERSION && PageTools(disk.value.toolsResult).Some?
    then Some(disk.value.toolsResult)
    else None
  }

  function WithResolver(disk: Option<CacheFile>): Proxy {
    Proxy(LoadToolsCache(disk), None, None, false, None, None, 0, false)
  }

  /** A failed write leaves the previous file in place. */
  function PersistToolsCache(w: World, tools: Json): (w': World)
    ensures Later(w, w') && w'.log == w.log
  {
    if w.Next().saved
    then w.Advance().(disk := Some(CacheFile(CACHE_VERSION, tools)), diskCurrent := true)
    else w.Advance().(diskCurrent := false)
  }

  // ---------- The downstream connection ----------

  function ResetDownstream(p: Proxy): Proxy {
    p.(client := None, activeEndpoint := None)
  }

  // ---------- What every operation keeps ----------

  /** The file holds the held catalogue, unless the last write failed. */
  ghost predicate CacheOnDisk(p: Proxy, w: World) {
    w.diskCurrent ==> LoadToolsCache(w.disk) == p.cachedTools
  }

  /** Facts about every state the proxy can be in, over the log of the world it runs in. */
  ghost predicate Invariant(p: Proxy, w: World) {
    && (p.client.Some? <==> p.activeEndpoint.Some?)
    && (p.client.Some? ==>
          && p.client.value.initialized && p.client.value.endpoint == p.activeEndpoint.value
          && p.cachedTools.Some? && p.initializeParams.Some?)
    && (p.pendingListChanged ==> p.upstreamInitialized)
    && (p.initializeParams.Some? <==> p.upstreamProtocol.Some?)
    && p.generation == Handshakes(w.log)
    && p.cachedTools == Listed(w.log, w.loaded).last
    && CacheOnDisk(p, w)
  }

  /** What every exchange with the orchestrator keeps of the proxy's view of its client: a catalogue once
      held stays held, and a change while the client is initialized is left pending. */
  ghost predicate Reports(p: Proxy, p': Proxy) {
    && p'.initializeParams == p.initializeParams && p'.upstreamProtocol == p.upstreamProtocol
    && p'.upstreamInitialized == p.upstreamInitialized
    && (p.cachedTools.Some? ==> p'.cachedTools.Some?)
    && (p.upstreamInitialized && p.cachedTools.Some? && p'.cachedTools != p.cachedTools ==> p'.pendingListChanged)
    && (p.pendingListChanged ==> p'.pendingListChanged)
    && (p'.pendingListChanged ==> p.pendingListChanged || p.upstreamInitialized)
  }

  ghost predicate Evolves(p: Proxy, w: World, p': Proxy, w': World) {
    Reports(p, p') && Later(w, w') && Relays(w'.log) == Relays(w.log)
  }

  function InstallTools(p: Proxy, w: World, tools: Json): (s: (Proxy, World))
    requires PageTools(tools).Some?
    ensures Evolves(p, w, s.0, s.1) && s.1.log == w.log
    ensures s.0.(cachedTools := p.cachedTools, pendingListChanged := p.pendingListChanged) == p
    ensures s.0.cachedTools == Some(tools)
    ensures CacheOnDisk(p, w) ==> CacheOnDisk(s.0, s.1)
  {
    var changed := p.cachedTools.Some? && p.cachedTools.value != tools;
    var p' := p.(
      cachedTools := Some(tools),
      pendingListChanged := p.pendingListChanged || (changed && p.upstreamInitialized));
    (p', if p.cachedTools.None? || changed then PersistToolsCache(w, tools) else w)
  }

  /** An attempt that completes no handshake and no listing changes nothing the invariant speaks of. */
  lemma AttemptKeeps(p: Proxy, w: World, w': World)
    requires Quiet(w, w') && Handshakes(w'.log) == Handshakes(w.log)
    requires Listed(w'.log, w.loaded).last == Listed(w.log, w.loaded).last
    ensures Evolves(p, w, p, w')
    ensures Invariant(p, w) ==> Invariant(p, w')
  {
    hide Handshakes, Listed, Relays, WellTagged;
  }

  /** The connection and the catalogue listed over it, installed together. */
  function InstallConnection(p: Proxy, w: World, c: Client, tools: Json): (s: (Proxy, World))
    requires PageTools(tools).Some?
  {
    InstallTools(
      p.(generation := p.generation + 1, client := Some(c), activeEndpoint := Some(c.endpoint)), w, tools)
  }

  /** Installing a connection completes one handshake. */
  lemma ConnectionKeeps(p: Proxy, w: World, c: Client, w1: World, tools: Json)
    requires PageTools(tools).Some? && p.initializeParams.Some?
    requires c.initialized && Quiet(w, w1) && Handshakes(w1.log) == Handshakes(w.log) + 1
    requires Listed(w1.log, w.loaded).last == Some(tools)
    ensures var (p', w') := InstallConnection(p, w1, c, tools);
            && Evolves(p, w, p', w') && p'.client.Some?
            && (Invariant(p, w) ==> Invariant(p', w'))
  {
    hide Handshakes, Listed, Relays, WellTagged, InstallTools;
  }

  function ConnectEndpoint(cfg: Config, p: Proxy, w: World, endpoint: Endpoint): (s: Step<()>)
    ensures Evolves(p, w, s.p, s.w)
    ensures Invariant(p, w) ==> Invariant(s.p, s.w)
    ensures s.r.Ok? ==> s.p.client.Some?
    ensures s.r.Err? ==> s.p == p && s.r.error.Disconnected()
  {
    hide InitializeWith, ListToolsValue, InstallConnection, Handshakes, Relays, Listed;
    hide Invariant, Evolves, Later, PageTools;
    AttemptKeeps(p, w, w);
    if p.initializeParams.None? then Step(p, w, Err(NoParams))
    else
      var shaken := InitializeWith(cfg, NewClient(endpoint), w, p.initializeParams.value);
      AttemptKeeps(p, w, shaken.w);
      if shaken.r.Err? then Step(p, shaken.w, Err(HandshakeFailed(shaken.r.error)))
      else
        var listed := ListToolsValue(cfg, shaken.c, shaken.w, Handshake);
        QuietTransitive(w, shaken.w, listed.w);
        if listed.r.Err? then
          AttemptKeeps(p, w, listed.w);
          Step(p, listed.w, Err(ListingFailed(listed.r.error)))
        else
          ConnectionKeeps(p, w, listed.c, listed.w, listed.r.value);
          var (p', w') := InstallConnection(p, listed.w, listed.c, listed.r.value);
          Step(p', w', Ok(()))
  }

  function EnsureConnected(cfg: Config, p: Proxy, w: World): (s: Step<()>)
    ensures Evolves(p, w, s.p, s.w)
    ensures Invariant(p, w) ==> Invariant(s.p, s.w)
    ensures s.r.Ok? ==> s.p.client.Some?
    ensures s.r.Err? ==> s.p == p && s.r.error.Disconnected()
  {
    hide ConnectEndpoint, Handshakes, Relays, Listed, WellTagged;
    var found := w.Next().endpoint;
    var w' := w.Discover();
    if found.None? then Step(p, w', if p.client.Some? then Ok(()) else Err(NoEndpoint))
    else if p.activeEndpoint == found && p.client.Some? then Step(p, w', Ok(()))
    else ConnectEndpoint(cfg, p, w', found.value)
  }

  /** Tries until connected, until a cache can stand in, or until the deadline has passed. */
  function ConnectForInitialize(cfg: Config, p: Proxy, w: World, deadline: nat): (s: Step<()>)
    ensures Evolves(p, w, s.p, s.w)
    ensures Invariant(p, w) ==> Invariant(s.p, s.w)
    ensures s.r.Err? ==> s.p == p && (s.p.cachedTools.Some? || deadline <= s.w.now)
    ensures s.r.Ok? ==> s.p.client.Some?
    decreases if w.now < deadline then deadline - w.now else 0
  {
    hide EnsureConnected, Handshakes, Relays, Listed, WellTagged;
    var s := EnsureConnected(cfg, p, w);
    if s.r.Ok? || s.p.cachedTools.Some? || deadline <= s.w.now then s
    else ConnectForInitialize(cfg, s.p, s.w.Sleep(100), deadline)
  }

  // ---------- Requests downstream ----------

  function Adopt(p: Proxy, c: Client): Proxy {
    p.(client := Some(c))
  }

  function RefreshToolsWithReconnect(cfg: Config, p: Proxy, w: World): (s: Step<()>)
    ensures Evolves(p, w, s.p, s.w)
    ensures Invariant(p, w) ==> Invariant(s.p, s.w)
    ensures s.r.Ok? ==> s.p.cachedTools.Some?
  {
    hide EnsureConnected, ListToolsValue, InstallTools, Handshakes, Relays, Listed, WellTagged;
    var ready := EnsureConnected(cfg, p, w);
    if ready.r.Err? then ready
    else
      var first := ListToolsValue(cfg, ready.p.client.value, ready.w, Refresh);
      var p1 := Adopt(ready.p, first.c);
      if first.r.Ok? then
        var (p2, w2) := InstallTools(p1, first.w, first.r.value);
        Step(p2, w2, Ok(()))
      else if first.r.error.RetryableBeforeExecution() then
        var again := EnsureConnected(cfg, ResetDownstream(p1), first.w);
        if again.r.Err? then again
        else
          var second := ListToolsValue(cfg, again.p.client.value, again.w, Refresh);
          var p2 := Adopt(again.p, second.c);
          if second.r.Err? then Step(p2, second.w, Err(ListingFailed(second.r.error)))
          else
            var (p3, w3) := InstallTools(p2, second.w, second.r.value);
            Step(p3, w3, Ok(()))
      else
        Step(if first.r.error.ExecutionUncertain() then ResetDownstream(p1) else p1, first.w,
             Err(ListingFailed(first.r.error)))
  }

  function CallFailure(kind: ErrorKind, sideEffecting: bool): Failure {
    if kind.ExecutionUncertain() then Uncertain(kind, sideEffecting) else CallFailed(kind)
  }

  /** An error of a call: the connection is dropped when the outcome is uncertain. */
  function Failing<T>(p: Proxy, w: World, kind: ErrorKind, sideEffecting: bool): Step<T> {
    Step(if kind.ExecutionUncertain() then ResetDownstream(p) else p, w, Err(CallFailure(kind, sideEffecting)))
  }

  /** The one replay, over a new connection. */
  function RetryRequest(
    cfg: Config, p: Proxy, w: World, rpc: string, params: Json, sideEffecting: bool): (s: Step<Json>)
    ensures Reports(p, s.p) && Later(w, s.w)
    ensures Invariant(p, w) ==> Invariant(s.p, s.w)
  {
    hide EnsureConnected, RequestMethod, Handshakes, Relays, Listed, WellTagged;
    var again := EnsureConnected(cfg, p, w);
    if again.r.Err? then Step(again.p, again.w, Err(again.r.error))
    else
      var second := RequestMethod(cfg, again.p.client.value, again.w, rpc, params);
      var p2 := Adopt(again.p, second.c);
      if second.r.Ok? then Step(p2, second.w, Ok(second.r.value))
      else Failing(p2, second.w, second.r.error, sideEffecting)
  }

  function ForwardRequest(
    cfg: Config, p: Proxy, w: World, rpc: string, params: Json, sideEffecting: bool): (s: Step<Json>)
    ensures Reports(p, s.p) && Later(w, s.w)
    ensures Invariant(p, w) ==> Invariant(s.p, s.w)
  {
    hide EnsureConnected, RequestMethod, RetryRequest, Handshakes, Relays, Listed, WellTagged;
    var ready := EnsureConnected(cfg, p, w);
    if ready.r.Err? then Step(ready.p, ready.w, Err(ready.r.error))
    else
      var first := RequestMethod(cfg, ready.p.client.value, ready.w, rpc, params);
      var p1 := Adopt(ready.p, first.c);
      if first.r.Ok? then Step(p1, first.w, Ok(first.r.value))
      else if first.r.error.RetryableBeforeExecution() then
        RetryRequest(cfg, ResetDownstream(p1), first.w, rpc, params, sideEffecting)
      else Failing(p1, first.w, first.r.error, sideEffecting)
  }

  function ForwardNotification(cfg: Config, p: Proxy, w: World, rpc: string, params: Json): (s: Step<()>)
    ensures Reports(p, s.p) && Later(w, s.w)
    ensures Invariant(p, w) ==> Invariant(s.p, s.w)
  {
    hide EnsureConnected, NotificationMethod, Handshakes, Relays, Listed, WellTagged;
    var ready := EnsureConnected(cfg, p, w);
    if ready.r.Err? then ready
    else
      var first := NotificationMethod(cfg, ready.p.client.value, ready.w, rpc, params);
      var p1 := Adopt(ready.p, first.c);
      if first.r.Ok? then Step(p1, first.w, Ok(()))
      else if first.r.error.RetryableBeforeExecution() then
        var again := EnsureConnected(cfg, ResetDownstream(p1), first.w);
        if again.r.Err? then again
        else
          var second := NotificationMethod(cfg, again.p.client.value, again.w, rpc, params);
          var p2 := Adopt(again.p, second.c);
          Step(p2, second.w, if second.r.Ok? then Ok(()) else Err(CallFailed(second.r.error)))
      else
        Step(if first.r.error.ExecutionUncertain() then ResetDownstream(p1) else p1, first.w,
             Err(CallFailed(first.r.error)))
  }

  // ---------- One message ----------

  datatype Turn = Turn(p: Proxy, w: World, out: seq<Outgoing>)

  datatype Answered = Answered(p: Proxy, w: World, out: Outgoing)

  function InitializeResult(protocol: Option<string>): Json {
    JObject(map[
      "protocolVersion" := if protocol.Some? then JString(protocol.value) else JNull,
      "capabilities" := JObject(map["tools" := JObject(map["listChanged" := JBool(true)])]),
      "serverInfo" := JObject(map["name" := JString("cc-panes-ctl-mcp-proxy")])])
  }

  /** The state in which a well-formed `initialize` starts connecting. */
  function Reinitialized(p: Proxy, params: Json, protocol: string): Proxy {
    ResetDownstream(p).(
      initializeParams := Some(params),
      upstreamProtocol := Some(protocol),
      upstreamInitialized := false,
      pendingListChanged := false)
  }

  function HandleInitialize(cfg: Config, p: Proxy, w: World, id: Json, params: Json): (a: Answered)
    ensures Later(w, a.w) && Relays(a.w.log) == Relays(w.log)
    ensures Invariant(p, w) ==> Invariant(a.p, a.w)
    ensures a.out.Reply? || a.out.ReplyError?
    ensures if params.GetString("protocolVersion").None? then a.p == p
            else !a.p.upstreamInitialized && !a.p.pendingListChanged
  {
    hide ConnectForInitialize, Handshakes, Relays, Listed, WellTagged;
    if !params.JObject? then Answered(p, w, ReplyError(id, -32602, BadParams))
    else
      var protocol := params.GetString("protocolVersion");
      if protocol.None? then Answered(p, w, ReplyError(id, -32602, MissingProtocol))
      else
        var s := ConnectForInitialize(cfg, Reinitialized(p, params, protocol.value), w, w.now + cfg.startupWait);
        if s.r.Err? && s.p.cachedTools.None? then Answered(s.p, s.w, ReplyError(id, -32002, s.r.error))
        else Answered(s.p, s.w, Reply(id, InitializeResult(s.p.upstreamProtocol)))
  }

  function HandleNotification(cfg: Config, p: Proxy, w: World, rpc: string, params: Json): (s: (Proxy, World))
    ensures Later(w, s.1)
    ensures rpc != "notifications/initialized" ==> Reports(p, s.0)
    ensures Invariant(p, w) ==> Invariant(s.0, s.1)
  {
    hide ForwardNotification, Handshakes, Relays, Listed, WellTagged;
    if rpc == "notifications/initialized" then (p.(upstreamInitialized := true), w)
    else if p.initializeParams.None? then (p, w)
    else
      var s := ForwardNotification(cfg, p, w, rpc, params);
      (s.p, s.w)
  }

  function HandleToolsList(cfg: Config, p: Proxy, w: World, id: Json): (a: Answered)
    ensures Evolves(p, w, a.p, a.w)
    ensures Invariant(p, w) ==> Invariant(a.p, a.w)
    ensures if a.p.cachedTools.Some? then a.out == Reply(id, a.p.cachedTools.value)
            else a.out.ReplyError? && a.out.id == id
  {
    hide RefreshToolsWithReconnect, Handshakes, Relays, Listed, WellTagged;
    var s := RefreshToolsWithReconnect(cfg, p, w);
    if s.r.Err? && s.p.cachedTools.None? then Answered(s.p, s.w, ReplyError(id, -32002, s.r.error))
    else Answered(s.p, s.w, Reply(id, s.p.cachedTools.value))
  }

  function HandleDownstreamRequest(
    cfg: Config, p: Proxy, w: World, id: Json, rpc: string, params: Json, sideEffecting: bool): (a: Answered)
    ensures Reports(p, a.p) && Later(w, a.w)
    ensures Invariant(p, w) ==> Invariant(a.p, a.w)
    ensures a.out.Reply? || a.out.ReplyError?
  {
    hide ForwardRequest, Handshakes, Relays, Listed, WellTagged;
    var s := ForwardRequest(cfg, p, w, rpc, params, sideEffecting);
    Answered(s.p, s.w, if s.r.Ok? then Reply(id, s.r.value) else ReplyError(id, -32001, s.r.error))
  }

  function Respond(cfg: Config, p: Proxy, w: World, id: Json, rpc: string, params: Json): (a: Answered)
    ensures Later(w, a.w)
    ensures Invariant(p, w) ==> Invariant(a.p, a.w)
    ensures rpc != "initialize" || params.GetString("protocolVersion").None? ==> Reports(p, a.p)
    ensures rpc == "initialize" && params.GetString("protocolVersion").Some? ==>
              !a.p.upstreamInitialized && !a.p.pendingListChanged
    ensures rpc == "tools/list" && a.out.Reply? ==> a.p.cachedTools == Some(a.out.result)
    ensures (a.out.Reply? || a.out.ReplyError?) && a.out.id == id
  {
    hide HandleInitialize, HandleToolsList, HandleDownstreamRequest, Handshakes, Relays, Listed, WellTagged;
    if rpc == "initialize" then HandleInitialize(cfg, p, w, id, params)
    else if rpc == "ping" then Answered(p, w, Reply(id, JObject(map[])))
    else if p.initializeParams.None? then Answered(p, w, ReplyError(id, -32002, NotInitialized))
    else if rpc == "tools/list" then HandleToolsList(cfg, p, w, id)
    else HandleDownstreamRequest(cfg, p, w, id, rpc, params, rpc == "tools/call")
  }

  /** Puts a pending notification in front of the response. */
  function Flush(a: Answered): Turn {
    if a.p.pendingListChanged && a.p.upstreamInitialized
    then Turn(a.p.(pendingListChanged := false), a.w, [ListChanged, a.out])
    else Turn(a.p, a.w, [a.out])
  }

  function HandleMessage(cfg: Config, p: Proxy, w: World, message: Json): (t: Turn)
    ensures Later(w, t.w)
    ensures Invariant(p, w) ==> Invariant(t.p, t.w)
  {
    hide Respond, HandleNotification, Handshakes, Relays, Listed, WellTagged;
    if !message.JObject? then Turn(p, w, [ReplyError(JNull, -32600, NotAnObject)])
    else
      var id, rpc := message.Get("id"), message.GetString("method");
      if rpc.None? then Turn(p, w, if id.Some? then [ReplyError(id.value, -32600, MissingMethod)] else [])
      else
        var params := message.Get("params").GetOr(JObject(map[]));
        if id.None? then
          var s := HandleNotification(cfg, p, w, rpc.value, params);
          Turn(s.0, s.1, [])
        else Flush(Respond(cfg, p, w, id.value, rpc.value, params))
  }

  // ---------- A whole run ----------

  function HandleLine(cfg: Config, p: Proxy, w: World, line: string): (t: Turn)
    ensures Later(w, t.w)
    ensures Invariant(p, w) ==> Invariant(t.p, t.w)
  {
    hide HandleMessage, Handshakes, Relays, Listed, WellTagged;
    if Trim(line) == "" then Turn(p, w, [])
    else
      match cfg.parse(line)
      case None => Turn(p, w, [ReplyError(JNull, -32700, ParseError)])
      case Some(message) => HandleMessage(cfg, p, w, message)
  }

  datatype Run = Run(p: Proxy, w: World, groups: seq<seq<Outgoing>>)

  /** The world a proxy starts in: any script, any cache file. */
  function StartWorld(script: seq<Answer>, disk: Option<CacheFile>): World {
    World(script, 0, 0, [], LoadToolsCache(disk), disk, true, None)
  }

  /** The run over some input lines; the n-th line is message number n, and its output is the n-th group. */
  function RunStream(cfg: Config, script: seq<Answer>, disk: Option<CacheFile>, lines: seq<string>): (run: Run)
    ensures run.w.origin == |lines| == |run.groups|
  {
    if lines == [] then Run(WithResolver(disk), StartWorld(script, disk), [])
    else
      var before := RunStream(cfg, script, disk, lines[..|lines| - 1]);
      var t := HandleLine(cfg, before.p, before.w, lines[|lines| - 1]);
      Run(t.p, t.w.(origin := |lines|), before.groups + [t.out])
  }
}
