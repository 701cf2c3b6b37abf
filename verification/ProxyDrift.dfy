/** Which inputs leave room for a missed catalogue change: a characterisation over the input lines alone. */
module ProxyDrift {
  import opened Common
  import opened Text
  import opened McpModel
  import opened ProxyModel
  import opened ProxyTheorems
  import opened ProxyCatalogue
  import opened ProxyScenarios

  /** Read off the input since the latest well-formed `initialize`: whether there was one, whether the tools were
      listed, whether a message that is passed on came after the last listing, whether `initialized` has come, and
      whether all of this was so when it came and nothing was listed since. */
  datatype Hint = Hint(begun: bool, listed: bool, moved: bool, ready: bool, drift: bool)

  /** Passed on to the orchestrator, over a new connection if need be. */
  predicate PassedOn(message: Json) {
    message.JObject? && !Local(message)
  }

  function Next(h: Hint, message: Json): Hint {
    if WellFormedInitialize(message) then Hint(true, false, false, false, false)
    else if InitializedNotice(message) then
      if h.ready then h else h.(ready := true, drift := h.listed && h.moved)
    else if !h.begun then h
    else if IsRequest(message, "tools/list") then h.(listed := true, moved := false, drift := false)
    else if PassedOn(message) then h.(moved := true)
    else h
  }

  function HintAfter(cfg: Config, lines: seq<string>): Hint {
    if lines == [] then Hint(false, false, false, false, false)
    else Next(HintAfter(cfg, lines[..|lines| - 1]), Message(cfg, lines[|lines| - 1]))
  }

  // ---------- No change is missed without room for it ----------

  ghost predicate Bounds(h: Hint, v: View, p: Proxy) {
    && h.begun == p.initializeParams.Some? && h.ready == p.upstreamInitialized
    && (h.listed ==> h.begun) && (v.listed.Some? ==> h.listed) && (v.drifted ==> h.drift)
    && (v.listed.Some? && !h.moved && !h.ready ==> p.cachedTools == v.listed)
  }

  /** What a message that is neither passed on nor a listing or an `initialize` does to the proxy. */
  lemma StaysPut(cfg: Config, p: Proxy, w: World, line: string)
    requires var message := Message(cfg, line);
             && !WellFormedInitialize(message)
             && (p.initializeParams.Some? ==> !IsRequest(message, "tools/list") && !PassedOn(message))
    ensures HandleLine(cfg, p, w, line).p.cachedTools == p.cachedTools
  {
    hide ConnectForInitialize, RefreshToolsWithReconnect, ForwardRequest, ForwardNotification;
    hide Handshakes, Relays, Listed, WellTagged, Trim, Invariant, Reports, Later, Evolves;
  }

  lemma ListingAnswers(cfg: Config, p: Proxy, w: World, line: string)
    requires p.initializeParams.Some? && IsRequest(Message(cfg, line), "tools/list")
    ensures var t := HandleLine(cfg, p, w, line);
            && t.out != []
            && (if t.p.cachedTools.Some?
                then t.out[|t.out| - 1].Reply? && t.out[|t.out| - 1].result == t.p.cachedTools.value
                else t.out[|t.out| - 1].ReplyError?)
            && (p.cachedTools.Some? ==> t.p.cachedTools.Some?)
  {
    hide RefreshToolsWithReconnect, Handshakes, Relays, Listed, WellTagged, Trim, Invariant, Later;
  }

  lemma KindsDiffer(message: Json)
    ensures InitializedNotice(message) ==>
              !WellFormedInitialize(message) && !IsRequest(message, "tools/list") && !PassedOn(message)
    ensures IsRequest(message, "tools/list") ==> !WellFormedInitialize(message) && !PassedOn(message)
  {
  }

  lemma NoticeStays(cfg: Config, p: Proxy, w: World, line: string)
    requires InitializedNotice(Message(cfg, line))
    ensures HandleLine(cfg, p, w, line).p == p.(upstreamInitialized := true)
    ensures HandleLine(cfg, p, w, line).w == w && HandleLine(cfg, p, w, line).out == []
  {
    hide ForwardNotification, Handshakes, Relays, Listed, WellTagged, Trim, Invariant, Reports, Later, Evolves;
  }

  lemma UnbegunListing(cfg: Config, p: Proxy, w: World, line: string)
    requires p.initializeParams.None? && IsRequest(Message(cfg, line), "tools/list")
    ensures var out := HandleLine(cfg, p, w, line).out; out != [] && out[|out| - 1].ReplyError?
  {
    hide RefreshToolsWithReconnect, Handshakes, Relays, Listed, WellTagged, Trim, Invariant, Reports, Later, Evolves;
  }

  lemma LineBounds(cfg: Config, p: Proxy, w: World, line: string, v: View, h: Hint)
    requires Invariant(p, w) && Informed(v, p) && Bounds(h, v, p)
    ensures var t := HandleLine(cfg, p, w, line);
            Bounds(Next(h, Message(cfg, line)), Observe(v, Message(cfg, line), p, t.out), t.p)
  {
    hide HandleLine, Invariant, WellFormedInitialize, InitializedNotice, IsRequest, PassedOn, Message;
    var message := Message(cfg, line);
    LineReady(cfg, p, w, line);
    LineBegins(cfg, p, w, line);
    KindsDiffer(message);
    if WellFormedInitialize(message) {
    } else if InitializedNotice(message) {
      NoticeStays(cfg, p, w, line);
    } else if h.begun && IsRequest(message, "tools/list") {
      ListingAnswers(cfg, p, w, line);
    } else if !(h.begun && PassedOn(message)) {
      if IsRequest(message, "tools/list") { UnbegunListing(cfg, p, w, line); }
      StaysPut(cfg, p, w, line);
    }
  }

  lemma {:induction false} RunBounds(cfg: Config, script: seq<Answer>, disk: Option<CacheFile>, lines: seq<string>)
    ensures Bounds(HintAfter(cfg, lines), ViewAfter(cfg, script, disk, lines), RunStream(cfg, script, disk, lines).p)
  {
    hide HandleLine, Handshakes, Relays, Listed, WellTagged, Invariant, Observe, Next, Message;
    if lines != [] {
      var n := |lines| - 1;
      var earlier := lines[..n];
      var before := RunStream(cfg, script, disk, earlier);
      RunBounds(cfg, script, disk, earlier);
      RunInvariant(cfg, script, disk, earlier);
      RunInforms(cfg, script, disk, earlier);
      LineBounds(cfg, before.p, before.w, lines[n], ViewAfter(cfg, script, disk, earlier), HintAfter(cfg, earlier));
    }
  }

  lemma MissedNeedsRoom(cfg: Config, script: seq<Answer>, disk: Option<CacheFile>, lines: seq<string>)
    requires Missed(ViewAfter(cfg, script, disk, lines), RunStream(cfg, script, disk, lines).p)
    ensures HintAfter(cfg, lines).drift
  {
    hide RunStream, ViewAfter, HintAfter;
    RunBounds(cfg, script, disk, lines);
    NoMissedChange(cfg, script, disk, lines);
  }

  // ---------- With an orchestrator that is silent ----------

  /** Not connected, with a catalogue to show and nothing to announce. */
  predicate Idle(p: Proxy) {
    p.client.None? && p.activeEndpoint.None? && p.cachedTools.Some? && !p.pendingListChanged
  }

  predicate Silent(w: World) {
    w.script == [] || w.script[0] == SILENCE
  }

  lemma SilentExchanges(cfg: Config, p: Proxy, w: World, rpc: string, params: Json, sideEffecting: bool)
    requires Idle(p) && Silent(w)
    ensures RefreshToolsWithReconnect(cfg, p, w) == Step(p, w.Discover(), Err(NoEndpoint))
    ensures ForwardRequest(cfg, p, w, rpc, params, sideEffecting) == Step(p, w.Discover(), Err(NoEndpoint))
    ensures ForwardNotification(cfg, p, w, rpc, params) == Step(p, w.Discover(), Err(NoEndpoint))
  {
    hide ConnectEndpoint, RequestMethod, NotificationMethod, ListToolsValue, RetryRequest, InstallTools;
    hide Handshakes, Relays, Listed, WellTagged, Invariant, Evolves, Reports, Later;
  }

  lemma SilentInitialize(cfg: Config, p: Proxy, w: World, deadline: nat)
    requires Idle(p) && Silent(w)
    ensures ConnectForInitialize(cfg, p, w, deadline) == Step(p, w.Discover(), Err(NoEndpoint))
  {
    hide ConnectEndpoint, Handshakes, Relays, Listed, WellTagged, Invariant, Evolves, Reports, Later;
  }

  /** Whether handling the message uses up one answer of a silent orchestrator. */
  predicate Asks(begun: bool, message: Json) {
    WellFormedInitialize(message) || (begun && (IsRequest(message, "tools/list") || PassedOn(message)))
  }

  /** The proxy after a message it could reach nobody about. */
  function Unreached(p: Proxy, message: Json): Proxy {
    if WellFormedInitialize(message) then
      Reinitialized(p, Params(message), Params(message).GetString("protocolVersion").value)
    else if InitializedNotice(message) then p.(upstreamInitialized := true)
    else p
  }

  /** A well-formed `initialize` by its parts. */
  predicate StartsOver(rpc: string, params: Json) {
    rpc == "initialize" && params.JObject? && params.GetString("protocolVersion").Some?
  }

  function Restarted(p: Proxy, rpc: string, params: Json): Proxy {
    if StartsOver(rpc, params) then Reinitialized(p, params, params.GetString("protocolVersion").value) else p
  }

  predicate AsksFor(begun: bool, rpc: string, params: Json) {
    StartsOver(rpc, params) || (begun && rpc != "initialize" && rpc != "ping")
  }

  lemma IdleHolds(p: Proxy)
    requires Idle(p)
    ensures p.cachedTools.Some?
  {
  }

  lemma RestartedIsIdle(p: Proxy, params: Json)
    requires Idle(p) && params.GetString("protocolVersion").Some?
    ensures Idle(Reinitialized(p, params, params.GetString("protocolVersion").value))
  {
  }

  lemma SilentStart(cfg: Config, p: Proxy, w: World, id: Json, params: Json)
    requires Idle(p) && Silent(w) && params.JObject? && params.GetString("protocolVersion").Some?
    ensures var a := HandleInitialize(cfg, p, w, id, params);
            && a.p == Reinitialized(p, params, params.GetString("protocolVersion").value)
            && a.w.script == w.Discover().script && IsResponse(a.out)
  {
    hide ConnectForInitialize, Reinitialized, Idle, Silent;
    hide Handshakes, Relays, Listed, WellTagged, Invariant, Evolves, Reports, Later;
    RestartedIsIdle(p, params);
    var q := Reinitialized(p, params, params.GetString("protocolVersion").value);
    SilentInitialize(cfg, q, w, w.now + cfg.startupWait);
    IdleHolds(q);
  }

  lemma SilentHandlers(cfg: Config, p: Proxy, w: World, id: Json, rpc: string, params: Json, se: bool)
    requires Idle(p) && Silent(w)
    ensures var a := HandleToolsList(cfg, p, w, id);
            a.p == p && a.w.script == w.Discover().script && a.out == Reply(id, p.cachedTools.value)
    ensures var a := HandleDownstreamRequest(cfg, p, w, id, rpc, params, se);
            a.p == p && a.w.script == w.Discover().script && IsResponse(a.out)
  {
    hide RefreshToolsWithReconnect, ForwardRequest, Silent;
    hide Handshakes, Relays, Listed, WellTagged, Invariant, Evolves, Reports, Later;
    SilentExchanges(cfg, p, w, rpc, params, se);
  }

  ghost predicate RespondEffect(p: Proxy, w: World, rpc: string, params: Json, a: Answered) {
    && a.p == Restarted(p, rpc, params) && IsResponse(a.out)
    && a.w.script == (if AsksFor(p.initializeParams.Some?, rpc, params) then w.Discover().script else w.script)
    && (rpc == "tools/list" ==> a.out.Reply? == p.initializeParams.Some?)
    && (rpc == "tools/list" && a.out.Reply? ==> p.cachedTools == Some(a.out.result))
  }

  lemma RespondsAsked(cfg: Config, p: Proxy, w: World, id: Json, rpc: string, params: Json)
    requires Idle(p) && Silent(w) && !StartsOver(rpc, params) && AsksFor(p.initializeParams.Some?, rpc, params)
    ensures RespondEffect(p, w, rpc, params, Respond(cfg, p, w, id, rpc, params))
  {
    hide HandleInitialize, HandleToolsList, HandleDownstreamRequest, Silent, World.Discover, StartsOver;
    hide Handshakes, Relays, Listed, WellTagged, Invariant, Evolves, Reports, Later;
    SilentHandlers(cfg, p, w, id, rpc, params, rpc == "tools/call");
  }

  lemma RespondsUnasked(cfg: Config, p: Proxy, w: World, id: Json, rpc: string, params: Json)
    requires Idle(p) && !AsksFor(p.initializeParams.Some?, rpc, params)
    ensures RespondEffect(p, w, rpc, params, Respond(cfg, p, w, id, rpc, params))
  {
    hide ConnectForInitialize, HandleToolsList, HandleDownstreamRequest, Idle, World.Discover, Reinitialized;
    hide Handshakes, Relays, Listed, WellTagged, Invariant, Evolves, Reports, Later;
  }

  lemma StartsByInitialize(cfg: Config, p: Proxy, w: World, id: Json, rpc: string, params: Json)
    requires Idle(p) && StartsOver(rpc, params) && (AsksFor(p.initializeParams.Some?, rpc, params) ==> Silent(w))
    ensures RespondEffect(p, w, rpc, params, Respond(cfg, p, w, id, rpc, params))
  {
    hide HandleInitialize, Reinitialized, Silent, Idle, World.Discover;
    hide Handshakes, Relays, Listed, WellTagged, Invariant, Evolves, Reports, Later;
    SilentStart(cfg, p, w, id, params);
  }

  lemma SilentRespond(cfg: Config, p: Proxy, w: World, id: Json, rpc: string, params: Json)
    requires Idle(p) && (AsksFor(p.initializeParams.Some?, rpc, params) ==> Silent(w))
    ensures RespondEffect(p, w, rpc, params, Respond(cfg, p, w, id, rpc, params))
  {
    hide *;
    if StartsOver(rpc, params) {
      StartsByInitialize(cfg, p, w, id, rpc, params);
    } else if AsksFor(p.initializeParams.Some?, rpc, params) {
      RespondsAsked(cfg, p, w, id, rpc, params);
    } else {
      RespondsUnasked(cfg, p, w, id, rpc, params);
    }
  }

  /** What handling a message does when nobody can be reached. */
  ghost predicate SilentEffect(p: Proxy, w: World, message: Json, t: Turn) {
    && t.p == Unreached(p, message) && Idle(t.p)
    && t.w.script == (if Asks(p.initializeParams.Some?, message) then w.Discover().script else w.script)
    && ListChanged !in t.out
    && (IsRequest(message, "tools/list") ==>
          && t.out != [] && t.out[|t.out| - 1].Reply? == p.initializeParams.Some?
          && (t.out[|t.out| - 1].Reply? ==> t.out[|t.out| - 1].result == p.cachedTools.value))
  }

  /** A request that reaches nobody, up to and including the flush. */
  lemma SilentRequest(cfg: Config, p: Proxy, w: World, line: string)
    requires Idle(p) && (Asks(p.initializeParams.Some?, Message(cfg, line)) ==> Silent(w))
    requires Message(cfg, line).Get("id").Some? && Rpc(Message(cfg, line)).Some?
    ensures SilentEffect(p, w, Message(cfg, line), HandleLine(cfg, p, w, line))
  {
    hide Respond, Reinitialized, Handshakes, Relays, Listed, WellTagged, Trim, Invariant, Later;
    var message := Message(cfg, line);
    var id, rpc, params := message.Get("id").value, Rpc(message).value, Params(message);
    SilentRespond(cfg, p, w, id, rpc, params);
    if StartsOver(rpc, params) { RestartedIsIdle(p, params); }
  }

  /** Anything that is not answered by a request's response. */
  lemma SilentOther(cfg: Config, p: Proxy, w: World, line: string)
    requires Idle(p) && (Asks(p.initializeParams.Some?, Message(cfg, line)) ==> Silent(w))
    requires Message(cfg, line).Get("id").None? || Rpc(Message(cfg, line)).None?
    ensures SilentEffect(p, w, Message(cfg, line), HandleLine(cfg, p, w, line))
  {
    hide Respond, ForwardNotification, Reinitialized, Handshakes, Relays, Listed, WellTagged, Trim, Invariant, Reports;
    hide Later;
    var message := Message(cfg, line);
    if Asks(p.initializeParams.Some?, message) {
      SilentExchanges(cfg, p, w, Rpc(message).value, Params(message), false);
    }
  }

  lemma SilentLine(cfg: Config, p: Proxy, w: World, line: string)
    requires Idle(p) && (Asks(p.initializeParams.Some?, Message(cfg, line)) ==> Silent(w))
    ensures SilentEffect(p, w, Message(cfg, line), HandleLine(cfg, p, w, line))
  {
    hide *;
    if Message(cfg, line).Get("id").Some? && Rpc(Message(cfg, line)).Some? {
      SilentRequest(cfg, p, w, line);
    } else {
      SilentOther(cfg, p, w, line);
    }
  }

  /** How many answers a silent orchestrator gives in all. */
  function Asked(cfg: Config, lines: seq<string>): nat {
    if lines == [] then 0
    else
      var earlier := lines[..|lines| - 1];
      Asked(cfg, earlier) + (if Asks(HintAfter(cfg, earlier).begun, Message(cfg, lines[|lines| - 1])) then 1 else 0)
  }

  function Silence(n: nat): seq<Answer> {
    seq(n, _ => SILENCE)
  }

  /** What a client knows that was told nothing but the catalogue the proxy started with. */
  ghost predicate KnowsOnly(h: Hint, v: View, p: Proxy) {
    && Idle(p) && p.cachedTools == Some(OLD)
    && h.begun == p.initializeParams.Some? && h.ready == p.upstreamInitialized && (h.listed ==> h.begun)
    && (p.initializeParams.Some? ==> p.initializeParams.value.JObject?)
    && v.listed == (if h.listed then Some(OLD) else None) && !v.told
  }

  lemma SilentStep(cfg: Config, p: Proxy, w: World, line: string, v: View, h: Hint)
    requires KnowsOnly(h, v, p) && (Asks(h.begun, Message(cfg, line)) ==> Silent(w))
    ensures var t := HandleLine(cfg, p, w, line);
            && KnowsOnly(Next(h, Message(cfg, line)), Observe(v, Message(cfg, line), p, t.out), t.p)
            && t.w.script == (if Asks(h.begun, Message(cfg, line)) then w.Discover().script else w.script)
  {
    hide HandleLine, IsRequest, PassedOn, Message, OLD, InitializedNotice;
    var message := Message(cfg, line);
    SilentLine(cfg, p, w, line);
    KindsDiffer(message);
  }

  lemma StartsKnowing(cfg: Config, script: seq<Answer>)
    ensures KnowsOnly(HintAfter(cfg, []), ViewAfter(cfg, script, OLD_FILE, []), RunStream(cfg, script, OLD_FILE, []).p)
    ensures RunStream(cfg, script, OLD_FILE, []).w.script == script
  {
  }

  lemma {:induction false} SilentRun(cfg: Config, lines: seq<string>, rest: seq<Answer>)
    ensures var script := Silence(Asked(cfg, lines)) + rest;
            var run := RunStream(cfg, script, OLD_FILE, lines);
            && run.w.script == rest
            && KnowsOnly(HintAfter(cfg, lines), ViewAfter(cfg, script, OLD_FILE, lines), run.p)
  {
    hide HandleLine, Observe, Next, Message, Asks, KnowsOnly, Invariant, Handshakes, Relays, Listed, WellTagged;
    var script := Silence(Asked(cfg, lines)) + rest;
    if lines == [] {
      assert script == rest;
      StartsKnowing(cfg, script);
    } else {
      var n := |lines| - 1;
      var earlier := lines[..n];
      var h := HintAfter(cfg, earlier);
      var asks := Asks(h.begun, Message(cfg, lines[n]));
      var later := if asks then [SILENCE] + rest else rest;
      assert script == Silence(Asked(cfg, earlier)) + later;
      SilentRun(cfg, earlier, later);
      var before := RunStream(cfg, script, OLD_FILE, earlier);
      SilentStep(cfg, before.p, before.w, lines[n], ViewAfter(cfg, script, OLD_FILE, earlier), h);
      if asks { assert later[1..] == rest; }
    }
  }

  // ---------- An orchestrator that speaks once ----------

  function There(url: string): Endpoint {
    Endpoint(url, "token", 1, 1, "dir")
  }

  /** The proxy can reach an orchestrator there, and read a greeting and a new catalogue from it. */
  predicate Conversable(cfg: Config, url: string, hello: string, tools: string) {
    cfg.urlValid(url) && ReadEnvelope(cfg, hello, 1) == Ok(JObject(map[])) && ReadEnvelope(cfg, tools, 2) == Ok(NEW)
  }

  /** It is found, shakes hands and lists its tools, and is not heard of again. */
  function Speech(url: string, hello: string, tools: string): seq<Answer> {
    [Answer(Some(There(url)), NoAnswer(ConnectionFailed), false, 0, true),
     Answers200(hello), Answers200(hello), Answers200(tools), Answers200(hello)]
  }

  lemma Greets(cfg: Config, w: World, url: string, hello: string, tools: string, params: Json)
    requires Conversable(cfg, url, hello, tools) && params.JObject?
    requires |w.script| == 4 && w.script[0] == Answers200(hello) && w.script[1] == Answers200(hello)
    ensures var s := InitializeWith(cfg, NewClient(There(url)), w, params);
            s.r.Ok? && s.c.endpoint == There(url) && s.c.initialized && s.c.nextId == 2 && s.w.script == w.script[2..]
  {
    hide ReadEnvelope, Handshakes, Relays, Listed, WellTagged, Trim;
  }

  lemma ListsNew(cfg: Config, c: Client, w: World, url: string, hello: string, tools: string)
    requires Conversable(cfg, url, hello, tools) && c.initialized && c.nextId == 2 && c.endpoint == There(url)
    requires |w.script| == 2 && w.script[0] == Answers200(tools)
    ensures var s := ListToolsValue(cfg, c, w, Handshake);
            s.r == Ok(NEW) && s.c.endpoint == There(url) && s.c.initialized && s.w.script == w.script[1..]
  {
    hide ReadEnvelope, Handshakes, Relays, Listed, WellTagged, Trim;
    assert NextCursor(NEW) == None && PageTools(NEW) == Some([JNull]);
    assert [] + [JNull] == [JNull];
  }

  lemma Connected(cfg: Config, p: Proxy, w: World, url: string, hello: string, tools: string)
    requires Conversable(cfg, url, hello, tools) && Idle(p) && p.cachedTools == Some(OLD) && !p.upstreamInitialized
    requires p.initializeParams.Some? && p.initializeParams.value.JObject? && w.script == Speech(url, hello, tools)
    ensures var s := EnsureConnected(cfg, p, w);
            && s.r.Ok? && s.w.script == [] && s.p.client.Some?
            && s.p.client.value.initialized && s.p.client.value.endpoint == There(url)
            && ResetDownstream(s.p) == p.(cachedTools := Some(NEW), generation := p.generation + 1)
  {
    hide InitializeWith, ListToolsValue, Conversable, Handshakes, Relays, Listed, WellTagged;
    hide Invariant, Evolves, Reports, Later, CacheOnDisk, OLD, NEW;
    var w1 := w.Discover();
    Greets(cfg, w1, url, hello, tools, p.initializeParams.value);
    var shaken := InitializeWith(cfg, NewClient(There(url)), w1, p.initializeParams.value);
    ListsNew(cfg, shaken.c, shaken.w, url, hello, tools);
    OldIsNotNew();
  }

  lemma Unheard(cfg: Config, c: Client, w: World, rpc: string, params: Json)
    requires c.initialized && cfg.urlValid(c.endpoint.baseUrl) && w.script == []
    ensures var s := RequestMethod(cfg, c, w, rpc, params); s.r == Err(Unreachable) && s.w.script == []
    ensures var s := NotificationMethod(cfg, c, w, rpc, params); s.r == Err(Unreachable) && s.w.script == []
  {
    hide ReadEnvelope, Handshakes, Relays, Listed, WellTagged, Trim;
  }

  /** The proxy after it heard of the new catalogue and lost the orchestrator again. */
  function Moved(p: Proxy): Proxy {
    p.(cachedTools := Some(NEW), generation := p.generation + 1)
  }

  lemma StillNobody(cfg: Config, p: Proxy, w: World)
    requires p.client.None? && w.script == []
    ensures EnsureConnected(cfg, p, w) == Step(p, w.Discover(), Err(NoEndpoint)) && w.Discover().script == []
  {
    hide ConnectEndpoint, Handshakes, Relays, Listed, WellTagged, Invariant, Evolves, Reports, Later;
  }

  lemma MovesForward(
    cfg: Config, p: Proxy, w: World, url: string, hello: string, tools: string, rpc: string, params: Json, se: bool)
    requires Conversable(cfg, url, hello, tools) && Idle(p) && p.cachedTools == Some(OLD) && !p.upstreamInitialized
    requires p.initializeParams.Some? && p.initializeParams.value.JObject? && w.script == Speech(url, hello, tools)
    ensures var s := ForwardRequest(cfg, p, w, rpc, params, se); s.p == Moved(p) && s.w.script == []
    ensures var s := ForwardNotification(cfg, p, w, rpc, params); s.p == Moved(p) && s.w.script == []
  {
    hide EnsureConnected, RequestMethod, NotificationMethod, ReadEnvelope, Handshakes, Relays, Listed, WellTagged;
    hide Invariant, Evolves, Reports, Later, OLD, NEW, Relayed;
    Connected(cfg, p, w, url, hello, tools);
    var ready := EnsureConnected(cfg, p, w);
    Unheard(cfg, ready.p.client.value, ready.w, rpc, params);
    StillNobody(cfg, Moved(p), RequestMethod(cfg, ready.p.client.value, ready.w, rpc, params).w);
    StillNobody(cfg, Moved(p), NotificationMethod(cfg, ready.p.client.value, ready.w, rpc, params).w);
    var first := RequestMethod(cfg, ready.p.client.value, ready.w, rpc, params);
    assert ResetDownstream(Adopt(ready.p, first.c)) == Moved(p);
    var notice := NotificationMethod(cfg, ready.p.client.value, ready.w, rpc, params);
    assert ResetDownstream(Adopt(ready.p, notice.c)) == Moved(p);
  }

  /** A message that is passed on lets the catalogue move, before anyone is to be told. */
  lemma MovingLine(cfg: Config, p: Proxy, w: World, line: string, url: string, hello: string, tools: string)
    requires Conversable(cfg, url, hello, tools) && Idle(p) && p.cachedTools == Some(OLD) && !p.upstreamInitialized
    requires p.initializeParams.Some? && p.initializeParams.value.JObject? && w.script == Speech(url, hello, tools)
    requires PassedOn(Message(cfg, line))
    ensures var t := HandleLine(cfg, p, w, line); t.p == Moved(p) && t.w.script == [] && ListChanged !in t.out
  {
    hide ForwardRequest, ForwardNotification, ReadEnvelope, OLD, NEW;
    hide Handshakes, Relays, Listed, WellTagged, Trim, Invariant, Evolves, Reports, Later;
    var message := Message(cfg, line);
    var rpc, params := Rpc(message).value, Params(message);
    MovesForward(cfg, p, w, url, hello, tools, rpc, params, rpc == "tools/call");
  }

  // ---------- Where there is room, a change can be missed ----------

  /** Line `m` is passed on after a listing and before `initialized`, and neither a listing nor an `initialize`
      follows. */
  ghost predicate RoomAt(cfg: Config, lines: seq<string>, m: nat) {
    && m < |lines| && PassedOn(Message(cfg, lines[m]))
    && (var h := HintAfter(cfg, lines[..m]); h.begun && h.listed && !h.ready)
    && forall j | m < j < |lines| ::
         !WellFormedInitialize(Message(cfg, lines[j])) && !IsRequest(Message(cfg, lines[j]), "tools/list")
  }

  lemma RoomExtends(cfg: Config, lines: seq<string>, m: nat)
    requires lines != [] && RoomAt(cfg, lines[..|lines| - 1], m)
    requires !WellFormedInitialize(Message(cfg, lines[|lines| - 1]))
    requires !IsRequest(Message(cfg, lines[|lines| - 1]), "tools/list")
    ensures RoomAt(cfg, lines, m)
  {
    hide WellFormedInitialize, IsRequest, Message, PassedOn, HintAfter;
    assert lines[..|lines| - 1][..m] == lines[..m];
  }

  lemma {:induction false} HintIsBegun(cfg: Config, lines: seq<string>)
    ensures var h := HintAfter(cfg, lines);
            && (h.listed ==> h.begun) && (h.moved ==> h.begun)
            && (h.drift ==> h.begun && h.listed && h.moved && h.ready)
  {
    hide WellFormedInitialize, InitializedNotice, IsRequest, Message, PassedOn;
    if lines != [] { HintIsBegun(cfg, lines[..|lines| - 1]); }
  }

  lemma RoomIsHere(cfg: Config, lines: seq<string>)
    requires lines != [] && PassedOn(Message(cfg, lines[|lines| - 1]))
    requires var h := HintAfter(cfg, lines[..|lines| - 1]); h.begun && h.listed && !h.ready
    ensures RoomAt(cfg, lines, |lines| - 1)
  {
    hide WellFormedInitialize, IsRequest, Message, PassedOn, HintAfter;
  }

  lemma {:induction false} MovedHasRoom(cfg: Config, lines: seq<string>) returns (m: nat)
    requires var h := HintAfter(cfg, lines); h.listed && h.moved && !h.ready
    ensures RoomAt(cfg, lines, m)
  {
    hide WellFormedInitialize, InitializedNotice, IsRequest, Message, PassedOn, RoomAt;
    var n := |lines| - 1;
    var earlier, message := lines[..n], Message(cfg, lines[n]);
    var h := HintAfter(cfg, earlier);
    HintIsBegun(cfg, lines);
    HintIsBegun(cfg, earlier);
    KindsDiffer(message);
    if PassedOn(message) {
      m := n;
      RoomIsHere(cfg, lines);
    } else {
      m := MovedHasRoom(cfg, earlier);
      RoomExtends(cfg, lines, m);
    }
  }

  lemma {:induction false} DriftHasRoom(cfg: Config, lines: seq<string>) returns (m: nat)
    requires HintAfter(cfg, lines).drift
    ensures RoomAt(cfg, lines, m) && HintAfter(cfg, lines).ready
  {
    hide WellFormedInitialize, InitializedNotice, IsRequest, Message, PassedOn, RoomAt;
    var n := |lines| - 1;
    var earlier, message := lines[..n], Message(cfg, lines[n]);
    HintIsBegun(cfg, lines);
    HintIsBegun(cfg, earlier);
    KindsDiffer(message);
    if HintAfter(cfg, earlier).drift {
      m := DriftHasRoom(cfg, earlier);
    } else {
      m := MovedHasRoom(cfg, earlier);
    }
    RoomExtends(cfg, lines, m);
  }

  /** The client still holds the old catalogue, the proxy the new one, and nothing tells of it. */
  ghost predicate Outdated(h: Hint, v: View, p: Proxy, script: seq<Answer>) {
    && Idle(p) && p.cachedTools == Some(NEW) && p.initializeParams.Some? && script == []
    && h.ready == p.upstreamInitialized && v.listed == Some(OLD) && !v.told
  }

  lemma TailLine(cfg: Config, p: Proxy, w: World, line: string)
    requires Idle(p) && w.script == [] && !WellFormedInitialize(Message(cfg, line))
    ensures var t := HandleLine(cfg, p, w, line);
            && t.p == (if InitializedNotice(Message(cfg, line)) then p.(upstreamInitialized := true) else p)
            && Idle(t.p) && t.w.script == [] && ListChanged !in t.out
  {
    hide HandleLine, WellFormedInitialize, IsRequest, PassedOn, Message, InitializedNotice, Asks, Idle;
    SilentLine(cfg, p, w, line);
  }

  lemma OnlyNotices(h: Hint, v: View, p: Proxy, message: Json, out: seq<Outgoing>)
    requires !WellFormedInitialize(message) && !IsRequest(message, "tools/list") && ListChanged !in out
    ensures var v' := Observe(v, message, p, out); v'.listed == v.listed && v'.told == v.told
    ensures Next(h, message).ready == (h.ready || InitializedNotice(message))
  {
    hide WellFormedInitialize, IsRequest, PassedOn, InitializedNotice;
  }

  lemma StaysOutdated(cfg: Config, p: Proxy, w: World, line: string, v: View, h: Hint)
    requires Outdated(h, v, p, w.script)
    requires !WellFormedInitialize(Message(cfg, line)) && !IsRequest(Message(cfg, line), "tools/list")
    ensures var t := HandleLine(cfg, p, w, line);
            Outdated(Next(h, Message(cfg, line)), Observe(v, Message(cfg, line), p, t.out), t.p, t.w.script)
  {
    hide HandleLine, WellFormedInitialize, IsRequest, PassedOn, Message, InitializedNotice, Idle, OLD, NEW, Next;
    hide Observe;
    TailLine(cfg, p, w, line);
    var t, message := HandleLine(cfg, p, w, line), Message(cfg, line);
    OnlyNotices(h, v, p, message, t.out);
  }

  lemma PassedOnIsNoInitialize(message: Json)
    requires PassedOn(message)
    ensures !WellFormedInitialize(message)
  {
  }

  lemma BecomesOutdated(
    cfg: Config, p: Proxy, w: World, line: string, url: string, hello: string, tools: string, v: View, h: Hint)
    requires Conversable(cfg, url, hello, tools) && KnowsOnly(h, v, p) && w.script == Speech(url, hello, tools)
    requires h.begun && h.listed && !h.ready && PassedOn(Message(cfg, line))
    ensures var t := HandleLine(cfg, p, w, line);
            Outdated(Next(h, Message(cfg, line)), Observe(v, Message(cfg, line), p, t.out), t.p, t.w.script)
  {
    hide HandleLine, WellFormedInitialize, IsRequest, PassedOn, Message, OLD, NEW, Conversable, InitializedNotice;
    KindsDiffer(Message(cfg, line));
    PassedOnIsNoInitialize(Message(cfg, line));
    MovingLine(cfg, p, w, line, url, hello, tools);
  }

  lemma {:induction false} OutdatedRun(
    cfg: Config, lines: seq<string>, m: nat, n: nat, url: string, hello: string, tools: string)
    requires Conversable(cfg, url, hello, tools) && RoomAt(cfg, lines, m) && m < n <= |lines|
    ensures var script := Silence(Asked(cfg, lines[..m])) + Speech(url, hello, tools);
            var run := RunStream(cfg, script, OLD_FILE, lines[..n]);
            Outdated(HintAfter(cfg, lines[..n]), ViewAfter(cfg, script, OLD_FILE, lines[..n]), run.p, run.w.script)
    decreases n
  {
    hide HandleLine, Observe, Next, Message, KnowsOnly, Outdated, Conversable, Speech, Asked, Silence, OLD_FILE;
    hide Invariant, Handshakes, Relays, Listed, WellTagged, PassedOn, WellFormedInitialize, IsRequest;
    var script := Silence(Asked(cfg, lines[..m])) + Speech(url, hello, tools);
    var earlier, line := lines[..n - 1], lines[n - 1];
    assert lines[..n][..n - 1] == earlier;
    var before := RunStream(cfg, script, OLD_FILE, earlier);
    if n == m + 1 {
      SilentRun(cfg, earlier, Speech(url, hello, tools));
      BecomesOutdated(cfg, before.p, before.w, line, url, hello, tools,
                      ViewAfter(cfg, script, OLD_FILE, earlier), HintAfter(cfg, earlier));
    } else {
      OutdatedRun(cfg, lines, m, n - 1, url, hello, tools);
      StaysOutdated(cfg, before.p, before.w, line, ViewAfter(cfg, script, OLD_FILE, earlier), HintAfter(cfg, earlier));
    }
  }

  ghost predicate CanMiss(cfg: Config, lines: seq<string>) {
    exists script, disk :: Missed(ViewAfter(cfg, script, disk, lines), RunStream(cfg, script, disk, lines).p)
  }

  lemma RoomIsInside(cfg: Config, lines: seq<string>, m: nat)
    requires RoomAt(cfg, lines, m)
    ensures m < |lines|
  {
  }

  lemma RoomIsEnough(cfg: Config, lines: seq<string>, url: string, hello: string, tools: string)
    requires Conversable(cfg, url, hello, tools) && HintAfter(cfg, lines).drift
    ensures CanMiss(cfg, lines)
  {
    hide RunStream, ViewAfter, HintAfter, RoomAt, Conversable, Speech, Asked, Silence, OLD_FILE;
    var m := DriftHasRoom(cfg, lines);
    assert m < |lines| by { RoomIsInside(cfg, lines, m); }
    OutdatedRun(cfg, lines, m, |lines|, url, hello, tools);
    assert lines[..|lines|] == lines;
    var script := Silence(Asked(cfg, lines[..m])) + Speech(url, hello, tools);
    OldIsNotNew();
    assert Missed(ViewAfter(cfg, script, OLD_FILE, lines), RunStream(cfg, script, OLD_FILE, lines).p);
  }

  /** The inputs on which some orchestrator and some cache file make the client miss a change, read off the input alone:
      since the latest well-formed `initialize` the tools were listed, then a message was passed on, then `initialized`
      came, and the tools were not listed again.  All that is asked of the orchestrator is that it can be understood. */
  lemma MissableInputs(cfg: Config, lines: seq<string>, url: string, hello: string, tools: string)
    requires Conversable(cfg, url, hello, tools)
    ensures CanMiss(cfg, lines) <==> HintAfter(cfg, lines).drift
  {
    hide RunStream, ViewAfter, HintAfter, Conversable;
    if CanMiss(cfg, lines) {
      var script, disk :| Missed(ViewAfter(cfg, script, disk, lines), RunStream(cfg, script, disk, lines).p);
      MissedNeedsRoom(cfg, script, disk, lines);
    }
    if HintAfter(cfg, lines).drift {
      RoomIsEnough(cfg, lines, url, hello, tools);
    }
  }
}
