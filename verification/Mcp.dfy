/** The MCP HTTP client with its mutable state, proved against the functions of McpModel. */
module Mcp {
  import opened Common
  import opened Text
  import opened McpModel

  /** The environment: every interaction uses up one answer of the script. */
  class Network {
    var script: seq<Answer>
    var now: nat
    var disk: Option<CacheFile>
    ghost var origin: nat
    ghost var log: seq<Event>
    ghost var diskCurrent: bool
    ghost const loaded: Option<Json>
    ghost var found: Option<Endpoint>

    constructor (script: seq<Answer>, disk: Option<CacheFile>, ghost loaded: Option<Json>)
      ensures Model() == World(script, 0, 0, [], loaded, disk, true, None)
    {
      this.script, this.now, this.disk, this.origin, this.log := script, 0, disk, 0, [];
      this.loaded, this.diskCurrent, this.found := loaded, true, None;
    }

    ghost function Model(): World
      reads this
    {
      World(script, now, origin, log, loaded, disk, diskCurrent, found)
    }

    method Interact() returns (a: Answer)
      modifies this
      ensures a == old(Model()).Next() && Model() == old(Model()).Advance()
    {
      a := SILENCE;
      if script != [] {
        a, script := script[0], script[1..];
      }
      now := now + a.elapsed;
    }

    /** Looks for the orchestrator. */
    method Discover() returns (endpoint: Option<Endpoint>)
      modifies this
      ensures endpoint == old(Model()).Next().endpoint && Model() == old(Model()).Discover()
    {
      var answer := Interact();
      endpoint := answer.endpoint;
      found := endpoint;
    }

    method Sleep(ms: nat)
      modifies this
      ensures Model() == old(Model()).Sleep(ms)
    {
      now := now + ms;
    }

    ghost method Record(e: Event)
      modifies this
      ensures Model() == old(Model()).Record(e)
    {
      log := log + [e];
    }
  }

  /** The steps of a request, without what its contract says of the log. */
  lemma RequestSteps(cfg: Config, c: Client, w: World, purpose: Purpose, rpc: string, params: Json)
    requires purpose.Relay? || IsControl(rpc)
    ensures var called, c0 := Request(cfg, c, w, purpose, rpc, params), c.(nextId := c.nextId + 1);
            if !cfg.urlValid(c.endpoint.baseUrl) then called == Called(c0, w, Err(Protocol))
            else
              var s := Send(cfg, c0, w, true);
              var r := if s.r.Ok? then ReadEnvelope(cfg, s.r.value, c.nextId) else Err(s.r.error);
              called == Called(s.c, s.w.Record(Posted(c, w, purpose, rpc, params, r)), r)
  {
    hide Send, ReadEnvelope, Posted, Handshakes, Listed, Relays, WellTagged, EndsHandshake, AddPage, Later;
  }

  class McpClient {
    const endpoint: Endpoint
    var sessionId: Option<string>
    var protocolVersion: string
    var nextId: nat
    var initialized: bool

    ghost function Model(): Client
      reads this
    {
      Client(endpoint, sessionId, protocolVersion, nextId, initialized)
    }

    constructor (endpoint: Endpoint)
      ensures Model() == NewClient(endpoint)
    {
      this.endpoint := endpoint;
      sessionId, protocolVersion, nextId, initialized := None, DEFAULT_PROTOCOL_VERSION, 1, false;
    }

    method Send(cfg: Config, net: Network, expectsResponse: bool) returns (r: Result<string, ErrorKind>)
      requires cfg.urlValid(endpoint.baseUrl)
      modifies this, net
      ensures Called(Model(), net.Model(), r) == McpModel.Send(cfg, old(Model()), old(net.Model()), expectsResponse)
    {
      var answer := net.Interact();
      match answer.wire
      case NoAnswer(error) =>
        return Err(ClassifyTransportError(error));
      case Received(status, session, body) =>
        if body.None? {
          return Err(Indeterminate);
        }
        if !IsSuccess(status) {
          return Err(if status == 404 && sessionId.Some? then SessionExpired else Http);
        }
        if sessionId.None? {
          sessionId := session;
        }
        if !expectsResponse && (Trim(body.value) == "" || status == 202 || status == 204) {
          return Ok("");
        }
        return Ok(body.value);
    }

    method Request(cfg: Config, net: Network, purpose: Purpose, rpc: string, params: Json)
      returns (r: Result<Json, ErrorKind>)
      requires purpose.Relay? || IsControl(rpc)
      modifies this, net
      ensures Called(Model(), net.Model(), r)
           == McpModel.Request(cfg, old(Model()), old(net.Model()), purpose, rpc, params)
    {
      hide McpModel.Send, McpModel.Request, ReadEnvelope, Handshakes, Listed, Relays, WellTagged, EndsHandshake;
      hide AddPage, Later, Posted;
      RequestSteps(cfg, Model(), net.Model(), purpose, rpc, params);
      ghost var self, before := Model(), net.Model();
      var id := nextId;
      nextId := nextId + 1;
      if !cfg.urlValid(endpoint.baseUrl) {
        return Err(Protocol);
      }
      var sent := Send(cfg, net, true);
      if sent.Ok? {
        r := ReadEnvelope(cfg, sent.value, id);
      } else {
        r := Err(sent.error);
      }
      net.Record(Posted(self, before, purpose, rpc, params, r));
    }

    method Notification(cfg: Config, net: Network, purpose: Purpose, rpc: string, params: Json)
      returns (r: Result<(), ErrorKind>)
      requires purpose.Relay? || IsControl(rpc)
      modifies this, net
      ensures Called(Model(), net.Model(), r)
           == McpModel.Notification(cfg, old(Model()), old(net.Model()), purpose, rpc, params)
    {
      hide McpModel.Send, Handshakes, Listed, Relays, WellTagged, EndsHandshake, AddPage;
      if !cfg.urlValid(endpoint.baseUrl) {
        return Err(Protocol);
      }
      ghost var self, before := Model(), net.Model();
      var sent := Send(cfg, net, false);
      r := if sent.Ok? then Ok(()) else Err(sent.error);
      net.Record(Posted(self, before, purpose, rpc, params, Acknowledged(r)));
    }

    method InitializeWith(cfg: Config, net: Network, params: Json) returns (r: Result<Json, ErrorKind>)
      modifies this, net
      ensures Called(Model(), net.Model(), r) == McpModel.InitializeWith(cfg, old(Model()), old(net.Model()), params)
    {
      hide McpModel.Request, McpModel.Notification;
      if initialized {
        return Ok(JObject(map["protocolVersion" := JString(protocolVersion)]));
      }
      if !params.JObject? {
        return Err(Protocol);
      }
      var requested := params.GetString("protocolVersion");
      if requested.Some? {
        protocolVersion := requested.value;
      }
      r := Request(cfg, net, Handshake, "initialize", params);
      if r.Err? {
        return r;
      }
      var agreed := r.value.GetString("protocolVersion");
      if agreed.Some? {
        protocolVersion := agreed.value;
      }
      var noted := Notification(cfg, net, Handshake, "notifications/initialized", JObject(map[]));
      if noted.Err? {
        return Err(noted.error);
      }
      initialized := true;
    }

    method EnsureInitialized(cfg: Config, net: Network) returns (r: Result<(), ErrorKind>)
      modifies this, net
      ensures Called(Model(), net.Model(), r) == McpModel.EnsureInitialized(cfg, old(Model()), old(net.Model()))
    {
      hide McpModel.InitializeWith;
      if !initialized {
        var shaken := InitializeWith(cfg, net, DefaultParams());
        if shaken.Err? {
          return Err(shaken.error);
        }
      }
      return Ok(());
    }

    /** Reads page after page until one has no cursor. */
    method ListToolsValue(cfg: Config, net: Network, purpose: Purpose) returns (r: Result<Json, ErrorKind>)
      requires !purpose.Relay?
      modifies this, net
      ensures Called(Model(), net.Model(), r) == McpModel.ListToolsValue(cfg, old(Model()), old(net.Model()), purpose)
    {
      hide McpModel.EnsureInitialized, McpModel.Request, Listed, Handshakes, Relays, WellTagged;
      var ready := EnsureInitialized(cfg, net);
      if ready.Err? {
        return Err(ready.error);
      }
      var cursor: Option<string> := None;
      var tools: seq<Json> := [];
      ghost var whole := ListPages(cfg, Model(), net.Model(), purpose, cursor, tools);
      while true
        invariant tools == if cursor.Some? then Listed(net.log, net.loaded).pages else []
        invariant ListPages(cfg, Model(), net.Model(), purpose, cursor, tools) == whole
        decreases |net.script|
      {
        ghost var page := ListPage(cfg, Model(), net.Model(), purpose, cursor, tools);
        var result := Request(cfg, net, purpose, "tools/list", CursorParams(cursor));
        if result.Err? {
          return Err(result.error);
        }
        var more := PageTools(result.value);
        if more.None? {
          return Err(InvalidResponse);
        }
        tools := tools + more.value;
        cursor := NextCursor(result.value);
        if cursor.None? {
          return Ok(Catalogue(tools));
        }
      }
    }

    method RequestMethod(cfg: Config, net: Network, rpc: string, params: Json) returns (r: Result<Json, ErrorKind>)
      modifies this, net
      ensures Called(Model(), net.Model(), r)
           == McpModel.RequestMethod(cfg, old(Model()), old(net.Model()), rpc, params)
    {
      hide McpModel.EnsureInitialized, McpModel.Request;
      var ready := EnsureInitialized(cfg, net);
      if ready.Err? {
        return Err(ready.error);
      }
      r := Request(cfg, net, Relay, rpc, params);
    }

    method NotificationMethod(cfg: Config, net: Network, rpc: string, params: Json) returns (r: Result<(), ErrorKind>)
      modifies this, net
      ensures Called(Model(), net.Model(), r)
           == McpModel.NotificationMethod(cfg, old(Model()), old(net.Model()), rpc, params)
    {
      hide McpModel.EnsureInitialized, McpModel.Notification;
      var ready := EnsureInitialized(cfg, net);
      if ready.Err? {
        return Err(ready.error);
      }
      r := Notification(cfg, net, Relay, rpc, params);
    }
  }
}
