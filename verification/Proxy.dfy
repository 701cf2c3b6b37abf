/** The resilient MCP proxy with its mutable state, proved against the functions of ProxyModel. */
module Proxy {
  import opened Common
  import opened Text
  import opened McpModel
  import opened Mcp
  import opened ProxyModel

  // ---------- The second halves of the specifications with a replay ----------

  ghost function Renotified(cfg: Config, p: ProxyModel.Proxy, w: World, rpc: string, params: Json): Step<()> {
    hide *;
    var again := EnsureConnected(cfg, p, w);
    if again.r.Err? then again
    else
      var second := NotificationMethod(cfg, again.p.client.value, again.w, rpc, params);
      Step(Adopt(again.p, second.c), second.w, if second.r.Ok? then Ok(()) else Err(CallFailed(second.r.error)))
  }

  lemma NotificationSteps(cfg: Config, p: ProxyModel.Proxy, w: World, rpc: string, params: Json)
    ensures var s, ready := ForwardNotification(cfg, p, w, rpc, params), EnsureConnected(cfg, p, w);
            if ready.r.Err? then s == ready
            else
              var first := NotificationMethod(cfg, ready.p.client.value, ready.w, rpc, params);
              var p1 := Adopt(ready.p, first.c);
              if first.r.Ok? then s == Step(p1, first.w, Ok(()))
              else if first.r.error.RetryableBeforeExecution() then
                s == Renotified(cfg, ResetDownstream(p1), first.w, rpc, params)
              else
                s == Step(if first.r.error.ExecutionUncertain() then ResetDownstream(p1) else p1, first.w,
                          Err(CallFailed(first.r.error)))
  {
    hide EnsureConnected, NotificationMethod, Adopt, ResetDownstream, Invariant, Evolves, Reports, Relayed, Later;
  }

  ghost function Relisted(cfg: Config, p: ProxyModel.Proxy, w: World): Step<()> {
    hide *;
    var again := EnsureConnected(cfg, p, w);
    if again.r.Err? then again
    else
      var second := ListToolsValue(cfg, again.p.client.value, again.w, Refresh);
      var p2 := Adopt(again.p, second.c);
      if second.r.Err? then Step(p2, second.w, Err(ListingFailed(second.r.error)))
      else
        var (p3, w3) := InstallTools(p2, second.w, second.r.value);
        Step(p3, w3, Ok(()))
  }

  lemma RefreshSteps(cfg: Config, p: ProxyModel.Proxy, w: World)
    ensures var s, ready := RefreshToolsWithReconnect(cfg, p, w), EnsureConnected(cfg, p, w);
            if ready.r.Err? then s == ready
            else
              var first := ListToolsValue(cfg, ready.p.client.value, ready.w, Refresh);
              var p1 := Adopt(ready.p, first.c);
              if first.r.Ok? then
                var (p2, w2) := InstallTools(p1, first.w, first.r.value);
                s == Step(p2, w2, Ok(()))
              else if first.r.error.RetryableBeforeExecution() then s == Relisted(cfg, ResetDownstream(p1), first.w)
              else
                s == Step(if first.r.error.ExecutionUncertain() then ResetDownstream(p1) else p1, first.w,
                          Err(ListingFailed(first.r.error)))
  {
    hide EnsureConnected, ListToolsValue, InstallTools, Adopt, ResetDownstream;
    hide Invariant, Evolves, Reports, Later, Quiet;
  }

  class ProxyState {
    const cfg: Config
    const net: Network
    var cachedTools: Option<Json>
    var initializeParams: Option<Json>
    var upstreamProtocol: Option<string>
    var upstreamInitialized: bool
    var client: McpClient?
    var activeEndpoint: Option<Endpoint>
    var generation: nat
    var pendingListChanged: bool

    ghost function Model(): ProxyModel.Proxy
      reads this, client
    {
      ProxyModel.Proxy(
        cachedTools, initializeParams, upstreamProtocol, upstreamInitialized,
        if client == null then None else Some(client.Model()), activeEndpoint, generation, pendingListChanged)
    }

    /** `with_resolver`: starts from the cache file. */
    constructor (cfg: Config, net: Network)
      ensures this.cfg == cfg && this.net == net
      ensures Model() == WithResolver(net.disk)
    {
      this.cfg, this.net := cfg, net;
      cachedTools := LoadToolsCache(net.disk);
      initializeParams, upstreamProtocol, upstreamInitialized := None, None, false;
      client, activeEndpoint, generation, pendingListChanged := null, None, 0, false;
    }

    method ResetDownstream()
      modifies this
      ensures Model() == ProxyModel.ResetDownstream(old(Model()))
      ensures client == null
    {
      client, activeEndpoint := null, None;
    }

    method PersistToolsCache(tools: Json)
      modifies net
      ensures net.Model() == ProxyModel.PersistToolsCache(old(net.Model()), tools)
    {
      var answer := net.Interact();
      net.diskCurrent := answer.saved;
      if answer.saved {
        net.disk := Some(CacheFile(CACHE_VERSION, tools));
      }
    }

    method InstallTools(tools: Json)
      requires PageTools(tools).Some?
      modifies this, net
      ensures (Model(), net.Model()) == ProxyModel.InstallTools(old(Model()), old(net.Model()), tools)
      ensures client == old(client)
    {
      var hadCache := cachedTools.Some?;
      var changed := cachedTools.Some? && cachedTools.value != tools;
      cachedTools := Some(tools);
      if changed && upstreamInitialized {
        pendingListChanged := true;
      }
      if !hadCache || changed {
        PersistToolsCache(tools);
      }
    }

    method ConnectEndpoint(endpoint: Endpoint) returns (r: Result<(), Failure>)
      modifies this, net
      ensures Step(Model(), net.Model(), r) == ProxyModel.ConnectEndpoint(cfg, old(Model()), old(net.Model()), endpoint)
      ensures client == old(client) || (client != null && fresh(client))
    {
      hide McpModel.InitializeWith, McpModel.ListToolsValue, ProxyModel.InstallTools;
      hide Invariant, Evolves, Reports, Later, Quiet, Preliminary;
      if initializeParams.None? {
        return Err(NoParams);
      }
      var connecting := new McpClient(endpoint);
      var shaken := connecting.InitializeWith(cfg, net, initializeParams.value);
      if shaken.Err? {
        return Err(HandshakeFailed(shaken.error));
      }
      var listed := connecting.ListToolsValue(cfg, net, Handshake);
      if listed.Err? {
        return Err(ListingFailed(listed.error));
      }
      generation := generation + 1;
      client := connecting;
      activeEndpoint := Some(endpoint);
      InstallTools(listed.value);
      return Ok(());
    }

    method EnsureConnected() returns (r: Result<(), Failure>)
      modifies this, net
      ensures Step(Model(), net.Model(), r) == ProxyModel.EnsureConnected(cfg, old(Model()), old(net.Model()))
      ensures client == old(client) || (client != null && fresh(client))
    {
      hide ProxyModel.ConnectEndpoint;
      var found := net.Discover();
      if found.None? {
        return if client != null then Ok(()) else Err(NoEndpoint);
      }
      if activeEndpoint == found && client != null {
        return Ok(());
      }
      r := ConnectEndpoint(found.value);
    }

    method ConnectForInitialize() returns (r: Result<(), Failure>)
      modifies this, net
      ensures Step(Model(), net.Model(), r)
           == ProxyModel.ConnectForInitialize(cfg, old(Model()), old(net.Model()), old(net.now) + cfg.startupWait)
      ensures client == old(client) || (client != null && fresh(client))
    {
      hide ProxyModel.EnsureConnected;
      var deadline := net.now + cfg.startupWait;
      ghost var whole := ProxyModel.ConnectForInitialize(cfg, Model(), net.Model(), deadline);
      while true
        invariant ProxyModel.ConnectForInitialize(cfg, Model(), net.Model(), deadline) == whole
        invariant client == old(client) || (client != null && fresh(client))
        decreases if net.now < deadline then deadline - net.now else 0
      {
        r := EnsureConnected();
        if r.Ok? || cachedTools.Some? || deadline <= net.now {
          return r;
        }
        net.Sleep(100);
      }
    }

    /** The second listing, over a new connection. */
    method RefreshAgain() returns (r: Result<(), Failure>)
      modifies this, net, client
      ensures Step(Model(), net.Model(), r) == Relisted(cfg, old(Model()), old(net.Model()))
      ensures client == old(client) || client == null || fresh(client)
    {
      hide ProxyModel.EnsureConnected, McpModel.ListToolsValue, ProxyModel.InstallTools;
      hide Invariant, Evolves, Reports, Later, Quiet;
      r := EnsureConnected();
      if r.Err? {
        return r;
      }
      var second := client.ListToolsValue(cfg, net, Refresh);
      if second.Err? {
        return Err(ListingFailed(second.error));
      }
      InstallTools(second.value);
      return Ok(());
    }

    method RefreshToolsWithReconnect() returns (r: Result<(), Failure>)
      modifies this, net, client
      ensures Step(Model(), net.Model(), r) == ProxyModel.RefreshToolsWithReconnect(cfg, old(Model()), old(net.Model()))
      ensures client == old(client) || client == null || fresh(client)
    {
      hide ProxyModel.EnsureConnected, McpModel.ListToolsValue, ProxyModel.InstallTools, Relisted;
      hide ProxyModel.RefreshToolsWithReconnect, Invariant, Evolves, Reports, Later, Quiet;
      RefreshSteps(cfg, Model(), net.Model());
      r := EnsureConnected();
      if r.Err? {
        return r;
      }
      var first := client.ListToolsValue(cfg, net, Refresh);
      if first.Ok? {
        InstallTools(first.value);
        return Ok(());
      }
      if first.error.RetryableBeforeExecution() {
        ResetDownstream();
        r := RefreshAgain();
        return r;
      }
      if first.error.ExecutionUncertain() {
        ResetDownstream();
      }
      return Err(ListingFailed(first.error));
    }

    /** Drops the connection after an uncertain outcome, and words the error. */
    method Fail(kind: ErrorKind, sideEffecting: bool) returns (r: Result<Json, Failure>)
      modifies this
      ensures Step(Model(), net.Model(), r) == Failing(old(Model()), old(net.Model()), kind, sideEffecting)
      ensures client == old(client) || client == null
    {
      if kind.ExecutionUncertain() {
        ResetDownstream();
      }
      return Err(CallFailure(kind, sideEffecting));
    }

    method RetryRequest(rpc: string, params: Json, sideEffecting: bool) returns (r: Result<Json, Failure>)
      modifies this, net, client
      ensures Step(Model(), net.Model(), r)
           == ProxyModel.RetryRequest(cfg, old(Model()), old(net.Model()), rpc, params, sideEffecting)
      ensures client == old(client) || client == null || fresh(client)
    {
      hide ProxyModel.EnsureConnected, McpModel.RequestMethod, Failing;
      hide Invariant, Evolves, Reports, Relayed, Later;
      var ready := EnsureConnected();
      if ready.Err? {
        return Err(ready.error);
      }
      var second := client.RequestMethod(cfg, net, rpc, params);
      if second.Ok? {
        return Ok(second.value);
      }
      r := Fail(second.error, sideEffecting);
    }

    method ForwardRequest(rpc: string, params: Json, sideEffecting: bool) returns (r: Result<Json, Failure>)
      modifies this, net, client
      ensures Step(Model(), net.Model(), r)
           == ProxyModel.ForwardRequest(cfg, old(Model()), old(net.Model()), rpc, params, sideEffecting)
      ensures client == old(client) || client == null || fresh(client)
    {
      hide ProxyModel.EnsureConnected, McpModel.RequestMethod, ProxyModel.RetryRequest, Failing;
      hide Invariant, Evolves, Reports, Relayed, Later;
      var ready := EnsureConnected();
      if ready.Err? {
        return Err(ready.error);
      }
      var first := client.RequestMethod(cfg, net, rpc, params);
      if first.Ok? {
        return Ok(first.value);
      }
      if first.error.RetryableBeforeExecution() {
        ResetDownstream();
        r := RetryRequest(rpc, params, sideEffecting);
        return r;
      }
      r := Fail(first.error, sideEffecting);
    }

    /** The replay of a notification, over a new connection. */
    method RetryNotification(rpc: string, params: Json) returns (r: Result<(), Failure>)
      modifies this, net, client
      ensures Step(Model(), net.Model(), r) == Renotified(cfg, old(Model()), old(net.Model()), rpc, params)
      ensures client == old(client) || client == null || fresh(client)
    {
      hide ProxyModel.EnsureConnected, McpModel.NotificationMethod;
      hide Invariant, Evolves, Reports, Relayed, Later;
      r := EnsureConnected();
      if r.Err? {
        return r;
      }
      var second := client.NotificationMethod(cfg, net, rpc, params);
      return if second.Ok? then Ok(()) else Err(CallFailed(second.error));
    }

    method ForwardNotification(rpc: string, params: Json) returns (r: Result<(), Failure>)
      modifies this, net, client
      ensures Step(Model(), net.Model(), r)
           == ProxyModel.ForwardNotification(cfg, old(Model()), old(net.Model()), rpc, params)
      ensures client == old(client) || client == null || fresh(client)
    {
      hide ProxyModel.EnsureConnected, McpModel.NotificationMethod, ProxyModel.ForwardNotification, Renotified;
      hide Invariant, Evolves, Reports, Relayed, Later;
      NotificationSteps(cfg, Model(), net.Model(), rpc, params);
      r := EnsureConnected();
      if r.Err? {
        return r;
      }
      var first := client.NotificationMethod(cfg, net, rpc, params);
      if first.Ok? {
        return Ok(());
      }
      if first.error.RetryableBeforeExecution() {
        ResetDownstream();
        r := RetryNotification(rpc, params);
        return r;
      }
      if first.error.ExecutionUncertain() {
        ResetDownstream();
      }
      return Err(CallFailed(first.error));
    }

    method HandleInitialize(id: Json, params: Json) returns (out: Outgoing)
      modifies this, net
      ensures Answered(Model(), net.Model(), out)
           == ProxyModel.HandleInitialize(cfg, old(Model()), old(net.Model()), id, params)
      ensures client == old(client) || client == null || fresh(client)
    {
      hide ProxyModel.ConnectForInitialize, Invariant, Evolves, Reports, Later, InitializeResult;
      if !params.JObject? {
        return ReplyError(id, -32602, BadParams);
      }
      var protocol := params.GetString("protocolVersion");
      if protocol.None? {
        return ReplyError(id, -32602, MissingProtocol);
      }
      initializeParams := Some(params);
      upstreamProtocol := Some(protocol.value);
      upstreamInitialized := false;
      pendingListChanged := false;
      ResetDownstream();
      var connected := ConnectForInitialize();
      if connected.Err? && cachedTools.None? {
        return ReplyError(id, -32002, connected.error);
      }
      return Reply(id, InitializeResult(upstreamProtocol));
    }

    method HandleNotification(rpc: string, params: Json)
      modifies this, net, client
      ensures (Model(), net.Model()) == ProxyModel.HandleNotification(cfg, old(Model()), old(net.Model()), rpc, params)
      ensures client == old(client) || client == null || fresh(client)
    {
      hide ProxyModel.ForwardNotification;
      if rpc == "notifications/initialized" {
        upstreamInitialized := true;
        return;
      }
      if initializeParams.None? {
        return;
      }
      var ignored := ForwardNotification(rpc, params);
    }

    method HandleToolsList(id: Json) returns (out: Outgoing)
      modifies this, net, client
      ensures Answered(Model(), net.Model(), out)
           == ProxyModel.HandleToolsList(cfg, old(Model()), old(net.Model()), id)
      ensures client == old(client) || client == null || fresh(client)
    {
      hide ProxyModel.RefreshToolsWithReconnect;
      var refreshed := RefreshToolsWithReconnect();
      if refreshed.Err? && cachedTools.None? {
        return ReplyError(id, -32002, refreshed.error);
      }
      return Reply(id, cachedTools.value);
    }

    method HandleDownstreamRequest(id: Json, rpc: string, params: Json, sideEffecting: bool) returns (out: Outgoing)
      modifies this, net, client
      ensures Answered(Model(), net.Model(), out)
           == ProxyModel.HandleDownstreamRequest(cfg, old(Model()), old(net.Model()), id, rpc, params, sideEffecting)
      ensures client == old(client) || client == null || fresh(client)
    {
      hide ProxyModel.ForwardRequest;
      var result := ForwardRequest(rpc, params, sideEffecting);
      out := if result.Ok? then Reply(id, result.value) else ReplyError(id, -32001, result.error);
    }

    method HandleMessage(message: Json) returns (out: seq<Outgoing>)
      modifies this, net, client
      ensures Turn(Model(), net.Model(), out) == ProxyModel.HandleMessage(cfg, old(Model()), old(net.Model()), message)
      ensures client == old(client) || client == null || fresh(client)
    {
      hide ProxyModel.HandleInitialize, ProxyModel.HandleToolsList, ProxyModel.HandleDownstreamRequest;
      hide ProxyModel.HandleNotification, Invariant, Evolves, Reports, Later;
      if !message.JObject? {
        return [ReplyError(JNull, -32600, NotAnObject)];
      }
      var id, rpc := message.Get("id"), message.GetString("method");
      if rpc.None? {
        return if id.Some? then [ReplyError(id.value, -32600, MissingMethod)] else [];
      }
      var params := message.Get("params").GetOr(JObject(map[]));
      if id.None? {
        HandleNotification(rpc.value, params);
        return [];
      }
      var response: Outgoing;
      if rpc.value == "initialize" {
        response := HandleInitialize(id.value, params);
      } else if rpc.value == "ping" {
        response := Reply(id.value, JObject(map[]));
      } else if initializeParams.None? {
        response := ReplyError(id.value, -32002, NotInitialized);
      } else if rpc.value == "tools/list" {
        response := HandleToolsList(id.value);
      } else {
        response := HandleDownstreamRequest(id.value, rpc.value, params, rpc.value == "tools/call");
      }
      out := [];
      if pendingListChanged && upstreamInitialized {
        pendingListChanged := false;
        out := [ListChanged];
      }
      out := out + [response];
    }

    method HandleLine(line: string) returns (out: seq<Outgoing>)
      modifies this, net, client
      ensures Turn(Model(), net.Model(), out) == ProxyModel.HandleLine(cfg, old(Model()), old(net.Model()), line)
      ensures client == old(client) || client == null || fresh(client)
    {
      hide ProxyModel.HandleMessage;
      if Trim(line) == "" {
        return [];
      }
      var parsed := cfg.parse(line);
      if parsed.None? {
        return [ReplyError(JNull, -32700, ParseError)];
      }
      out := HandleMessage(parsed.value);
    }
  }

  ghost function Flatten(groups: seq<seq<Outgoing>>): seq<Outgoing> {
    if groups == [] then [] else Flatten(groups[..|groups| - 1]) + groups[|groups| - 1]
  }

  lemma NothingRun(cfg: Config, script: seq<Answer>, disk: Option<CacheFile>)
    ensures ProxyModel.RunStream(cfg, script, disk, []) == Run(WithResolver(disk), StartWorld(script, disk), [])
    ensures Flatten(ProxyModel.RunStream(cfg, script, disk, []).groups) == []
  {
  }

  lemma RunStep(cfg: Config, script: seq<Answer>, disk: Option<CacheFile>, lines: seq<string>, i: nat)
    requires i < |lines|
    ensures var before := ProxyModel.RunStream(cfg, script, disk, lines[..i]);
            var t := HandleLine(cfg, before.p, before.w, lines[i]);
            var run := ProxyModel.RunStream(cfg, script, disk, lines[..i + 1]);
            && run == Run(t.p, t.w.(origin := i + 1), before.groups + [t.out])
            && Flatten(run.groups) == Flatten(before.groups) + t.out
  {
    hide HandleLine, Invariant, Later;
    assert lines[..i + 1][..i] == lines[..i];
    var groups := ProxyModel.RunStream(cfg, script, disk, lines[..i + 1]).groups;
    assert groups[..|groups| - 1] == ProxyModel.RunStream(cfg, script, disk, lines[..i]).groups;
  }

  /** `run_stream`: what is written is the concatenation of the groups of the specified run. */
  method RunStream(cfg: Config, script: seq<Answer>, disk: Option<CacheFile>, lines: seq<string>)
    returns (output: seq<Outgoing>)
    ensures output == Flatten(ProxyModel.RunStream(cfg, script, disk, lines).groups)
  {
    hide ProxyModel.HandleLine, ProxyModel.RunStream, Flatten, Invariant, Later;
    var net := new Network(script, disk, LoadToolsCache(disk));
    var state := new ProxyState(cfg, net);
    output := [];
    ghost var run := ProxyModel.RunStream(cfg, script, disk, []);
    assert lines[..0] == [];
    NothingRun(cfg, script, disk);
    for i := 0 to |lines|
      invariant state.cfg == cfg && state.net == net && fresh(net) && fresh(state)
      invariant state.client != null ==> fresh(state.client)
      invariant run == ProxyModel.RunStream(cfg, script, disk, lines[..i])
      invariant state.Model() == run.p && net.Model() == run.w
      invariant output == Flatten(run.groups)
    {
      var line := lines[i];
      RunStep(cfg, script, disk, lines, i);
      var messages := state.HandleLine(line);
      output := output + messages;
      net.origin := i + 1;
      run := ProxyModel.RunStream(cfg, script, disk, lines[..i + 1]);
    }
    assert lines[..|lines|] == lines;
  }
}
