/** When the proxy gives up the connection to the orchestrator, and when it keeps it. */
module ProxyConnections {
  import opened Common
  import opened Text
  import opened McpModel
  import opened ProxyModel
  import opened ProxyTheorems
  import opened ProxyCatalogue
  import opened ProxyPosts

  // ---------- Relaying ----------

  predicate Connected(p: Proxy) {
    p.client.Some? && p.activeEndpoint.Some?
  }

  predicate Cut(p: Proxy) {
    p.client.None? && p.activeEndpoint.None?
  }

  /** The failures after which a message may have been carried out. */
  predicate Open(kind: ErrorKind) {
    kind == Indeterminate || kind == InvalidResponse
  }

  /** What a relayed request leaves: a connection after a result or an error that settles the matter, none after one
      that does not. */
  predicate LeftByRequest(p: Proxy, r: Result<Json, Failure>) {
    match r
    case Ok(_) => Connected(p)
    case Err(Uncertain(kind, _)) => Cut(p) && Open(kind)
    case Err(CallFailed(kind)) => Connected(p) && !Open(kind)
    case Err(_) => true
  }

  lemma FailureLeaves(p: Proxy, w: World, kind: ErrorKind, sideEffecting: bool)
    requires Connected(p)
    ensures var s: Step<Json> := Failing(p, w, kind, sideEffecting); LeftByRequest(s.p, s.r)
  {
  }

  lemma RetryLeaves(cfg: Config, p: Proxy, w: World, rpc: string, params: Json, sideEffecting: bool)
    requires Invariant(p, w)
    ensures var s := RetryRequest(cfg, p, w, rpc, params, sideEffecting); LeftByRequest(s.p, s.r)
  {
    hide EnsureConnected, RequestMethod, Handshakes, Relays, Listed, WellTagged, Failing, Later, Reports, CacheOnDisk;
    var again := EnsureConnected(cfg, p, w);
    if again.r.Ok? {
      var second := RequestMethod(cfg, again.p.client.value, again.w, rpc, params);
      if second.r.Err? { FailureLeaves(Adopt(again.p, second.c), second.w, second.r.error, sideEffecting); }
    }
  }

  lemma RelayedInvariant(
    p: Proxy, w: World, c: Client, w': World, rpc: string, params: Json, r: Result<Json, ErrorKind>)
    requires Invariant(p, w) && Relayed(w, w', rpc, params, r)
    ensures Invariant(ResetDownstream(p.(client := Some(c))), w')
  {
    hide Handshakes, Relays, Listed, WellTagged;
  }

  /** A request that is passed on. */
  lemma RequestLeaves(cfg: Config, p: Proxy, w: World, rpc: string, params: Json, sideEffecting: bool)
    requires Invariant(p, w)
    ensures var s := ForwardRequest(cfg, p, w, rpc, params, sideEffecting); LeftByRequest(s.p, s.r)
  {
    hide EnsureConnected, RequestMethod, RetryRequest, Handshakes, Relays, Listed, WellTagged, Failing, Later, Reports;
    hide CacheOnDisk;
    var ready := EnsureConnected(cfg, p, w);
    if ready.r.Ok? {
      var first := RequestMethod(cfg, ready.p.client.value, ready.w, rpc, params);
      var p1 := Adopt(ready.p, first.c);
      if first.r.Err? {
        FailureLeaves(p1, first.w, first.r.error, sideEffecting);
        if first.r.error.RetryableBeforeExecution() {
          RelayedInvariant(ready.p, ready.w, first.c, first.w, rpc, params, first.r);
          RetryLeaves(cfg, ResetDownstream(p1), first.w, rpc, params, sideEffecting);
        }
      }
    }
  }

  lemma NotificationPosted(cfg: Config, c: Client, w: World, rpc: string, params: Json)
    requires c.initialized
    ensures var s := NotificationMethod(cfg, c, w, rpc, params);
            if cfg.urlValid(c.endpoint.baseUrl)
            then Relays(s.w.log) == Relays(w.log) + [Posted(c, w, Relay, rpc, params, Acknowledged(s.r))]
            else s.w.log == w.log && s.r == Err(Protocol)
  {
    hide Handshakes, Relays, Listed, WellTagged, Later, AddPage, EndsHandshake;
    var s := Notification(cfg, c, w, Relay, rpc, params);
    AppendEvent(w.log, Posted(c, w, Relay, rpc, params, Acknowledged(s.r)));
  }

  /** A notification that is passed on: an open failure cuts the connection, but not that of the second send. */
  lemma NotificationLeaves(cfg: Config, p: Proxy, w: World, rpc: string, params: Json)
    requires Invariant(p, w)
    ensures var s := ForwardNotification(cfg, p, w, rpc, params);
            && (s.r.Ok? ==> Connected(s.p))
            && (s.r.Err? && s.r.error.CallFailed? ==>
                  if Open(s.r.error.kind) && |Relays(s.w.log)| <= |Relays(w.log)| + 1 then Cut(s.p) else Connected(s.p))
  {
    hide EnsureConnected, NotificationMethod, Handshakes, Relays, Listed, WellTagged, Later, Reports;
    var ready := EnsureConnected(cfg, p, w);
    if ready.r.Ok? {
      var first := NotificationMethod(cfg, ready.p.client.value, ready.w, rpc, params);
      NotificationPosted(cfg, ready.p.client.value, ready.w, rpc, params);
      if first.r.Err? && first.r.error.RetryableBeforeExecution() {
        var p1 := ResetDownstream(Adopt(ready.p, first.c));
        RelayedInvariant(ready.p, ready.w, first.c, first.w, rpc, params, Acknowledged(first.r));
        var again := EnsureConnected(cfg, p1, first.w);
        if again.r.Ok? { NotificationPosted(cfg, again.p.client.value, again.w, rpc, params); }
      }
    }
  }

  /** A listing on the client's behalf, likewise. */
  lemma ListingLeaves(cfg: Config, p: Proxy, w: World)
    requires Invariant(p, w) && EnsureConnected(cfg, p, w).r.Ok?
    ensures var s, ready := RefreshToolsWithReconnect(cfg, p, w), EnsureConnected(cfg, p, w);
            var first := ListToolsValue(cfg, ready.p.client.value, ready.w, Refresh);
            && (s.r.Ok? ==> Connected(s.p))
            && (first.r.Err? && Open(first.r.error) ==> s.r.Err? && Cut(s.p))
            && (first.r.Err? && (first.r.error.Http? || first.r.error.Protocol?) ==> s.r.Err? && Connected(s.p))
  {
    hide EnsureConnected, ListToolsValue, Handshakes, Relays, Listed, WellTagged, Later, Reports, CacheOnDisk;
  }

  // ---------- What must be sent ----------

  /** A client that has shaken hands posts the message exactly if its URL is valid. */
  lemma RequestPosted(cfg: Config, c: Client, w: World, rpc: string, params: Json)
    requires c.initialized
    ensures var s := RequestMethod(cfg, c, w, rpc, params);
            if cfg.urlValid(c.endpoint.baseUrl)
            then Relays(s.w.log) == Relays(w.log) + [Posted(c, w, Relay, rpc, params, s.r)]
            else s.w.log == w.log && s.r == Err(Protocol)
  {
    hide Handshakes, Relays, Listed, WellTagged, Later, AddPage, EndsHandshake;
    var s := Request(cfg, c, w, Relay, rpc, params);
    RequestMeaning(cfg, c, w, Relay, rpc, params);
    AppendEvent(w.log, Posted(c, w, Relay, rpc, params, s.r));
  }

  /** There was no new connection, or its URL was not valid. */
  predicate NoSecond<T>(r: Result<T, Failure>) {
    r.Err? && (r.error.Disconnected() || r.error == CallFailed(Protocol))
  }

  /** A message is sent exactly if there is a connection with a valid URL; and if it was not carried out it is sent
      again, unless there is no new connection to be had or its URL is not valid. */
  ghost predicate SentOn<T>(cfg: Config, p: Proxy, w: World, w': World, r: Result<T, Failure>) {
    var ready, n := EnsureConnected(cfg, p, w), |Relays(w.log)|;
    if ready.r.Err? || !cfg.urlValid(ready.p.client.value.endpoint.baseUrl) then Relays(w'.log) == Relays(w.log)
    else
      && n < |Relays(w'.log)|
      && var first := Relays(w'.log)[n];
         && first.post == PostOf(ready.p.client.value, ready.w)
         && (|Relays(w'.log)| == n + 2 ==> Retryable(first))
         && (|Relays(w'.log)| == n + 2
             || (|Relays(w'.log)| == n + 1 && (Retryable(first) ==> NoSecond(r))))
  }

  lemma RetrySent(cfg: Config, p: Proxy, w: World, rpc: string, params: Json, sideEffecting: bool)
    requires Invariant(p, w)
    ensures var s := RetryRequest(cfg, p, w, rpc, params, sideEffecting);
            (Relays(s.w.log) == Relays(w.log) && NoSecond(s.r)) || (exists e :: Relays(s.w.log) == Relays(w.log) + [e])
  {
    hide EnsureConnected, RequestMethod, Handshakes, Relays, Listed, WellTagged, Later, Reports, CacheOnDisk;
    var again := EnsureConnected(cfg, p, w);
    if again.r.Ok? { RequestPosted(cfg, again.p.client.value, again.w, rpc, params); }
  }

  lemma RequestSent(cfg: Config, p: Proxy, w: World, rpc: string, params: Json, sideEffecting: bool)
    requires Invariant(p, w)
    ensures var s := ForwardRequest(cfg, p, w, rpc, params, sideEffecting); SentOn(cfg, p, w, s.w, s.r)
  {
    hide EnsureConnected, RequestMethod, RetryRequest, CallFailure, NoSecond, Handshakes, Relays, Listed, WellTagged;
    hide Later, Reports, CacheOnDisk;
    var ready := EnsureConnected(cfg, p, w);
    if ready.r.Ok? {
      var first := RequestMethod(cfg, ready.p.client.value, ready.w, rpc, params);
      RequestPosted(cfg, ready.p.client.value, ready.w, rpc, params);
      if first.r.Err? && first.r.error.RetryableBeforeExecution() {
        RelayedInvariant(ready.p, ready.w, first.c, first.w, rpc, params, first.r);
        var p1 := ResetDownstream(Adopt(ready.p, first.c));
        RetrySent(cfg, p1, first.w, rpc, params, sideEffecting);
      }
    }
  }

  lemma NotificationSent(cfg: Config, p: Proxy, w: World, rpc: string, params: Json)
    requires Invariant(p, w)
    ensures var s := ForwardNotification(cfg, p, w, rpc, params); SentOn(cfg, p, w, s.w, s.r)
  {
    hide EnsureConnected, NotificationMethod, Handshakes, Relays, Listed, WellTagged, Later, Reports, CacheOnDisk;
    var ready := EnsureConnected(cfg, p, w);
    if ready.r.Ok? {
      var first := NotificationMethod(cfg, ready.p.client.value, ready.w, rpc, params);
      NotificationPosted(cfg, ready.p.client.value, ready.w, rpc, params);
      if first.r.Err? && first.r.error.RetryableBeforeExecution() {
        var p1 := ResetDownstream(Adopt(ready.p, first.c));
        RelayedInvariant(ready.p, ready.w, first.c, first.w, rpc, params, Acknowledged(first.r));
        var again := EnsureConnected(cfg, p1, first.w);
        if again.r.Ok? { NotificationPosted(cfg, again.p.client.value, again.w, rpc, params); }
      }
    }
  }

  // ---------- A new session of the client ----------

  /** Without a connection, connecting takes one whole handshake. */
  lemma {:induction false} ConnectingShakesHands(cfg: Config, p: Proxy, w: World, deadline: nat)
    requires Invariant(p, w) && p.client.None?
    ensures var s := ConnectForInitialize(cfg, p, w, deadline);
            if s.r.Ok? then Connected(s.p) && s.p.generation == p.generation + 1 else s.p == p
    decreases if w.now < deadline then deadline - w.now else 0
  {
    hide EnsureConnected, Handshakes, Relays, Listed, WellTagged, Reports;
    ConnectionIsToTheDiscovered(cfg, p, w);
    var s := EnsureConnected(cfg, p, w);
    if !(s.r.Ok? || s.p.cachedTools.Some? || deadline <= s.w.now) {
      assert Invariant(s.p, s.w.Sleep(100));
      ConnectingShakesHands(cfg, s.p, s.w.Sleep(100), deadline);
    }
  }

  /** A well-formed `initialize` gives up the connection it finds: the one it leaves, if any, is a new one. */
  lemma InitializeLeaves(cfg: Config, p: Proxy, w: World, id: Json, params: Json)
    requires Invariant(p, w) && params.JObject? && params.GetString("protocolVersion").Some?
    ensures var a := HandleInitialize(cfg, p, w, id, params);
            if Connected(a.p) then a.p.generation == p.generation + 1 else Cut(a.p) && a.p.generation == p.generation
  {
    hide ConnectForInitialize, Handshakes, Relays, Listed, WellTagged, Later, Reports;
    var protocol := params.GetString("protocolVersion").value;
    ReinitializedIsInvariant(p, w, params, protocol);
    ConnectingShakesHands(cfg, Reinitialized(p, params, protocol), w, w.now + cfg.startupWait);
  }

  /** With a catalogue held, `initialize` tries to connect once, does not wait, and succeeds. */
  lemma CacheSparesWaiting(cfg: Config, p: Proxy, w: World, id: Json, params: Json)
    requires p.cachedTools.Some? && params.JObject? && params.GetString("protocolVersion").Some?
    ensures var a := HandleInitialize(cfg, p, w, id, params);
            var once := EnsureConnected(cfg, Reinitialized(p, params, params.GetString("protocolVersion").value), w);
            a.p == once.p && a.w == once.w && a.out.Reply?
  {
    hide EnsureConnected, Handshakes, Relays, Listed, WellTagged, Invariant, InitializeResult;
  }

  // ---------- Over runs ----------

  /** What the reply to a relayed request says about the connection. */
  predicate LeftByReply(p: Proxy, reply: Outgoing) {
    && (reply.Reply? ==> Connected(p))
    && (reply.ReplyError? && reply.why.Uncertain? ==> Cut(p))
    && (reply.ReplyError? && reply.why.CallFailed? ==> Connected(p))
  }

  lemma SentAlike(cfg: Config, p: Proxy, w: World, w': World, r: Result<Json, Failure>)
    requires SentOn(cfg, p, w, w', r)
    ensures var r': Result<(), Failure> := if r.Ok? then Ok(()) else Err(r.error); SentOn(cfg, p, w, w', r')
  {
    hide EnsureConnected, Relays;
  }

  /** Nothing that is to be passed on is swallowed: after an accepted `initialize`, a relayed message, request or
      notification, is sent exactly if there is a connection with a valid URL. */
  lemma NothingIsSwallowed(cfg: Config, p: Proxy, w: World, line: string) returns (r: Result<(), Failure>)
    requires Invariant(p, w) && IsRelayed(cfg, line) && p.initializeParams.Some?
    ensures SentOn(cfg, p, w, HandleLine(cfg, p, w, line).w, r)
    ensures var message, out := cfg.parse(line).value, HandleLine(cfg, p, w, line).out;
            message.Get("id").Some? ==>
              out != [] && var reply := out[|out| - 1];
                if reply.ReplyError? then r == Err(reply.why) else reply.Reply? && r.Ok?
  {
    hide HandleInitialize, HandleToolsList, ForwardRequest, ForwardNotification, Handshakes, Relays, Listed, WellTagged;
    hide Trim, Later, Reports, Evolves, Invariant, SentOn, EnsureConnected;
    var message := cfg.parse(line).value;
    var rpc, params := Rpc(message).value, Params(message);
    if message.Get("id").Some? {
      RequestSent(cfg, p, w, rpc, params, rpc == "tools/call");
      var s := ForwardRequest(cfg, p, w, rpc, params, rpc == "tools/call");
      SentAlike(cfg, p, w, s.w, s.r);
      r := if s.r.Ok? then Ok(()) else Err(s.r.error);
    } else {
      NotificationSent(cfg, p, w, rpc, params);
      r := ForwardNotification(cfg, p, w, rpc, params).r;
    }
  }

  lemma LineLeaves(cfg: Config, p: Proxy, w: World, line: string)
    requires Invariant(p, w)
    ensures var t, message := HandleLine(cfg, p, w, line), Message(cfg, line);
            && (IsRelayed(cfg, line) && message.Get("id").Some? ==>
                  t.out != [] && LeftByReply(t.p, t.out[|t.out| - 1]))
            && (WellFormedInitialize(message) ==>
                  if Connected(t.p) then t.p.generation == p.generation + 1 else Cut(t.p))
  {
    hide HandleInitialize, HandleToolsList, ForwardRequest, HandleNotification, Handshakes, Relays, Listed, WellTagged;
    hide Trim, Later, Reports, Evolves, Invariant;
    var message := Message(cfg, line);
    if message.JObject? && message.Get("id").Some? && Rpc(message).Some? {
      var id, rpc, params := message.Get("id").value, Rpc(message).value, Params(message);
      if WellFormedInitialize(message) {
        InitializeLeaves(cfg, p, w, id, params);
      } else if IsRelayed(cfg, line) {
        RequestLeaves(cfg, p, w, rpc, params, rpc == "tools/call");
      }
    }
  }

  /** Over every run: after a relayed request whose outcome stays open there is no connection, so that what comes next
      begins with a handshake; after one that is settled there is.  After a well-formed `initialize` there is none but a
      new one. */
  lemma RunLeaves(cfg: Config, script: seq<Answer>, disk: Option<CacheFile>, lines: seq<string>)
    requires lines != []
    ensures var n := |lines| - 1;
            var run, before := RunStream(cfg, script, disk, lines), RunStream(cfg, script, disk, lines[..n]);
            var out, message := run.groups[n], Message(cfg, lines[n]);
            && (IsRelayed(cfg, lines[n]) && message.Get("id").Some? ==>
                  out != [] && LeftByReply(run.p, out[|out| - 1]))
            && (WellFormedInitialize(message) ==>
                  if Connected(run.p) then Handshakes(run.w.log) == Handshakes(before.w.log) + 1 else Cut(run.p))
  {
    hide HandleLine, IsRelayed, Message, WellFormedInitialize, LeftByReply, Connected, Cut;
    hide Handshakes, Relays, Listed, WellTagged;
    var n := |lines| - 1;
    var before := RunStream(cfg, script, disk, lines[..n]);
    RunInvariant(cfg, script, disk, lines[..n]);
    RunInvariant(cfg, script, disk, lines);
    LineLeaves(cfg, before.p, before.w, lines[n]);
  }
}
