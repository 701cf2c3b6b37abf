/** Concrete runs that show where the guarantees of ProxyTheorems and ProxyCatalogue end. */
module ProxyScenarios {
  import opened Common
  import opened Text
  import opened McpModel
  import opened ProxyModel
  import opened ProxyTheorems
  import opened ProxyCatalogue

  const HERE := Endpoint("here", "token", 1, 1, "dir")

  const OLD := Catalogue([])
  const NEW := Catalogue([JNull])

  function Rpcs(id: nat, rpc: string, params: Json): Json {
    JObject(map["id" := JInt(id), "method" := JString(rpc), "params" := params])
  }

  function Answering(id: nat, result: Json): Json {
    JObject(map["id" := JInt(id), "result" := result])
  }

  /** Short names for the few documents the two runs exchange. */
  function Parse(text: string): Option<Json> {
    if text == "I" then Some(Rpcs(1, "initialize", JObject(map["protocolVersion" := JString("v")])))
    else if text == "L" then Some(Rpcs(2, "tools/list", JObject(map[])))
    else if text == "C" then Some(Rpcs(3, "tools/call", JObject(map[])))
    else if text == "N" then Some(JObject(map["method" := JString("notifications/initialized")]))
    else if text == "{1" then Some(Answering(1, JObject(map[])))
    else if text == "{2" then Some(Answering(2, NEW))
    else if text == "{3" then Some(Answering(3, JNull))
    else None
  }

  const SETUP := Config(Parse, _ => true, 200)

  function Answers200(body: string): Answer {
    Answer(None, Received(200, Some("s"), Some(body)), true, 0, true)
  }

  const FOUND := Answer(Some(HERE), NoAnswer(ConnectionFailed), false, 0, true)

  lemma ShortTexts()
    ensures Trim("I") == "I" && Trim("L") == "L" && Trim("C") == "C" && Trim("N") == "N"
    ensures Trim("{1") == "{1" && Trim("{2") == "{2" && Trim("{3") == "{3" && Trim("x") == "x"
  {
  }

  lemma ReadsAnswer(body: string, id: nat, result: Json)
    requires (body, id, result) in {("{1", 1, JObject(map[])), ("{2", 2, NEW), ("{3", 3, JNull)}
    ensures ReadEnvelope(SETUP, body, id) == Ok(result)
  {
    hide Trim, NEW;
    ShortTexts();
    var envelope := Answering(id, result);
    assert Parse(body) == Some(envelope);
    assert envelope.Get("id") == Some(JInt(id)) && envelope.Get("error") == None
        && envelope.Get("result") == Some(result);
  }

  /** A POST to the orchestrator that was just found. */
  function At(session: bool, answer: Answer): Post {
    Post(HERE, Some(HERE), session, answer.wire, answer.executed)
  }

  /** One request answered well. */
  lemma GoodRequest(
    cfg: Config, c: Client, w: World, purpose: Purpose, rpc: string, params: Json, body: string, result: Json)
    requires purpose.Relay? || IsControl(rpc)
    requires cfg.urlValid(c.endpoint.baseUrl) && ReadEnvelope(cfg, body, c.nextId) == Ok(result)
    requires w.script != [] && w.script[0] == Answers200(body)
    ensures Request(cfg, c, w, purpose, rpc, params) == Called(
              c.(nextId := c.nextId + 1, sessionId := Some(c.sessionId.GetOr("s"))),
              w.(script := w.script[1..],
                 log := w.log + [Sent(w.origin, purpose, rpc, params, Ok(result), PostOf(c, w))]),
              Ok(result))
  {
    hide ReadEnvelope, Handshakes, Relays, Listed, WellTagged, Trim;
  }

  lemma GoodNotification(cfg: Config, c: Client, w: World, rpc: string, params: Json)
    requires IsControl(rpc) && cfg.urlValid(c.endpoint.baseUrl)
    requires w.script != [] && w.script[0] == Answers200("x")
    ensures Notification(cfg, c, w, Handshake, rpc, params) == Called(
              c.(sessionId := Some(c.sessionId.GetOr("s"))),
              w.(script := w.script[1..],
                 log := w.log + [Sent(w.origin, Handshake, rpc, params, Ok(JNull), PostOf(c, w))]),
              Ok(()))
  {
    hide Handshakes, Relays, Listed, WellTagged, Trim;
  }

  const HELLO := JObject(map["protocolVersion" := JString("v")])

  /** A handshake against two good answers. */
  lemma Handshaken(w: World)
    requires |w.script| >= 2 && w.script[0] == Answers200("{1") && w.script[1] == Answers200("x")
    ensures var s := InitializeWith(SETUP, NewClient(HERE), w, HELLO);
            && s.r.Ok? && s.c == Client(HERE, Some("s"), "v", 2, true)
            && s.w.script == w.script[2..] && s.w.now == w.now && s.w.found == w.found
  {
    hide Request, Notification, ReadEnvelope, Parse, Handshakes, Relays, Listed, WellTagged;
    var c0 := NewClient(HERE).(protocolVersion := "v");
    ReadsAnswer("{1", 1, JObject(map[]));
    GoodRequest(SETUP, c0, w, Handshake, "initialize", HELLO, "{1", JObject(map[]));
    var r := Request(SETUP, c0, w, Handshake, "initialize", HELLO);
    GoodNotification(SETUP, r.c, r.w, "notifications/initialized", JObject(map[]));
  }

  lemma OldIsNotNew()
    ensures OLD != NEW
  {
    assert PageTools(OLD).value == [];
  }

  /** A connection made over three good answers lists the new catalogue, which is written if it was not held. */
  lemma Connects(p: Proxy, w: World)
    requires p.initializeParams == Some(HELLO) && (p.cachedTools == Some(OLD) || p.cachedTools == Some(NEW))
    requires |w.script| >= 4
    requires w.script[0] == Answers200("{1") && w.script[1] == Answers200("x") && w.script[2] == Answers200("{2")
    ensures var s := ConnectEndpoint(SETUP, p, w, HERE);
            && s.r.Ok? && s.w.script == (if p.cachedTools == Some(OLD) then w.script[4..] else w.script[3..])
            && s.w.found == w.found
            && s.p == p.(
                 cachedTools := Some(NEW), activeEndpoint := Some(HERE), generation := p.generation + 1,
                 client := Some(Client(HERE, Some("s"), "v", 3, true)),
                 pendingListChanged := p.pendingListChanged || (p.cachedTools == Some(OLD) && p.upstreamInitialized))
  {
    hide Request, InitializeWith, ReadEnvelope, Parse, Handshakes, Relays, Listed, WellTagged, Invariant, Reports;
    Handshaken(w);
    var shaken := InitializeWith(SETUP, NewClient(HERE), w, HELLO);
    ReadsAnswer("{2", 2, NEW);
    GoodRequest(SETUP, shaken.c, shaken.w, Handshake, "tools/list", CursorParams(None), "{2", NEW);
    assert [] + [JNull] == [JNull];
    OldIsNotNew();
  }

  /** The orchestrator is found while there is no connection. */
  lemma Found(p: Proxy, w: World)
    requires p.client.None? && w.Next().endpoint == Some(HERE)
    ensures EnsureConnected(SETUP, p, w) == ConnectEndpoint(SETUP, p, w.Discover(), HERE)
  {
    hide ConnectEndpoint, Handshakes, Relays, Listed, WellTagged, Invariant, Reports;
  }

  const OLD_FILE := Some(CacheFile(CACHE_VERSION, OLD))

  function Started(cached: Json): Proxy {
    Proxy(Some(cached), Some(HELLO), Some("v"), false, None, None, 0, false)
  }

  /** The three request lines, read. */
  lemma ReadsRequest(p: Proxy, w: World, line: string, id: nat, rpc: string, params: Json)
    requires (line, id, rpc, params) in {
      ("I", 1, "initialize", HELLO), ("L", 2, "tools/list", JObject(map[])), ("C", 3, "tools/call", JObject(map[]))}
    ensures HandleLine(SETUP, p, w, line) == Flush(Respond(SETUP, p, w, JInt(id), rpc, params))
  {
    hide Respond, Flush, HandleNotification, Handshakes, Relays, Listed, WellTagged, Invariant, Reports, Trim;
    ShortTexts();
    assert Parse(line) == Some(Rpcs(id, rpc, params));
  }

  /** `initialize` while the orchestrator cannot be found: the cached catalogue stands in. */
  lemma StartsOffline(w: World)
    requires w.script != [] && w.script[0].endpoint == None
    ensures var t := HandleLine(SETUP, WithResolver(OLD_FILE), w, "I");
            t.p == Started(OLD) && t.w.script == w.script[1..]
  {
    hide HandleLine, ConnectEndpoint, Handshakes, Relays, Listed, WellTagged, Invariant, Reports;
    ReadsRequest(WithResolver(OLD_FILE), w, "I", 1, "initialize", HELLO);
  }

  lemma ListsOffline(w: World)
    requires w.script != [] && w.script[0].endpoint == None
    ensures var t := HandleLine(SETUP, Started(OLD), w, "L");
            t.p == Started(OLD) && t.out == [Reply(JInt(2), OLD)] && t.w.script == w.script[1..]
  {
    hide HandleLine, ConnectEndpoint, ListToolsValue, Handshakes, Relays, Listed, WellTagged, Invariant, Reports;
    ReadsRequest(Started(OLD), w, "L", 2, "tools/list", JObject(map[]));
  }

  /** A call that connects, and then loses the orchestrator before the call is sent. */
  lemma ConnectsSilently(w: World)
    requires w.script == [FOUND, Answers200("{1"), Answers200("x"), Answers200("{2"), SILENCE]
    ensures var t := HandleLine(SETUP, Started(OLD), w, "C");
            t.p == Started(OLD).(cachedTools := Some(NEW), generation := 1) && ListChanged !in t.out
  {
    hide HandleLine, ConnectEndpoint, Handshakes, Relays, Listed, WellTagged, Invariant, Reports;
    ReadsRequest(Started(OLD), w, "C", 3, "tools/call", JObject(map[]));
    Found(Started(OLD), w);
    Connects(Started(OLD), w.Discover());
  }

  lemma Becomes(p: Proxy, w: World)
    ensures HandleLine(SETUP, p, w, "N").p == p.(upstreamInitialized := true)
  {
    hide Handshakes, Relays, Listed, WellTagged, Trim;
    ShortTexts();
  }

  lemma Kinds()
    ensures WellFormedInitialize(Message(SETUP, "I"))
    ensures !WellFormedInitialize(Message(SETUP, "L")) && IsRequest(Message(SETUP, "L"), "tools/list")
    ensures !WellFormedInitialize(Message(SETUP, "C")) && !IsRequest(Message(SETUP, "C"), "tools/list")
    ensures !InitializedNotice(Message(SETUP, "L")) && !InitializedNotice(Message(SETUP, "C"))
    ensures !WellFormedInitialize(Message(SETUP, "N")) && InitializedNotice(Message(SETUP, "N"))
  {
    hide Trim;
    ShortTexts();
  }

  /** The hypothesis of NoMissedChange is needed: a client that lists before it sends `initialized` can be left
      with an outdated catalogue. */
  lemma EarlyListerCanMissAChange()
    ensures var script := [SILENCE, SILENCE, FOUND, Answers200("{1"), Answers200("x"), Answers200("{2"), SILENCE];
            var lines := ["I", "L", "C", "N"];
            Missed(ViewAfter(SETUP, script, OLD_FILE, lines), RunStream(SETUP, script, OLD_FILE, lines).p)
  {
    hide HandleLine, Handshakes, Relays, Listed, WellTagged, Trim, WellFormedInitialize, IsRequest, InitializedNotice,
        Message;
    var script := [SILENCE, SILENCE, FOUND, Answers200("{1"), Answers200("x"), Answers200("{2"), SILENCE];
    var l1, l2, l3, l4 := ["I"], ["I", "L"], ["I", "L", "C"], ["I", "L", "C", "N"];
    assert l4[..3] == l3 && l3[..2] == l2 && l2[..1] == l1 && l1[..0] == [];
    var r0, r1, r2, r3 := RunStream(SETUP, script, OLD_FILE, []), RunStream(SETUP, script, OLD_FILE, l1),
                          RunStream(SETUP, script, OLD_FILE, l2), RunStream(SETUP, script, OLD_FILE, l3);
    StartsOffline(r0.w);
    ListsOffline(r1.w);
    ConnectsSilently(r2.w);
    Becomes(r3.p, r3.w);
    Kinds();
    OldIsNotNew();
    assert ViewAfter(SETUP, script, OLD_FILE, l1) == View(None, false, false, false);
    assert ViewAfter(SETUP, script, OLD_FILE, l2) == View(Some(OLD), false, true, false);
    assert ViewAfter(SETUP, script, OLD_FILE, l3) == View(Some(OLD), false, true, false);
  }

  // ---------- The assumption about the answers ----------

  const AGAIN := Answer(Some(HERE), NoAnswer(ConnectionFailed), false, 0, true)

  /** A server that executes a call and then claims the session is gone. */
  const LYING_EXPIRY := Answer(None, Received(404, None, Some("")), true, 0, true)

  const CONNECTED := Started(NEW).(
    activeEndpoint := Some(HERE), generation := 1, client := Some(Client(HERE, Some("s"), "v", 3, true)))

  lemma StartsOnline(w: World)
    requires |w.script| >= 5 && w.script[..4] == [FOUND, Answers200("{1"), Answers200("x"), Answers200("{2")]
    ensures var t := HandleLine(SETUP, WithResolver(OLD_FILE), w, "I");
            t.p == CONNECTED && t.w.script == w.script[5..]
            && Relays(t.w.log) == Relays(w.log) && t.w.origin == w.origin
  {
    hide HandleLine, EnsureConnected, ConnectEndpoint, Handshakes, Relays, Listed, WellTagged, Invariant, Reports;
    ReadsRequest(WithResolver(OLD_FILE), w, "I", 1, "initialize", HELLO);
    assert w.script[0] == FOUND && w.script[1] == Answers200("{1");
    assert w.script[2] == Answers200("x") && w.script[3] == Answers200("{2");
    Found(Started(OLD), w);
    Connects(Started(OLD), w.Discover());
  }

  const CALL_PARAMS := JObject(map[])

  /** The call as it is carried out while the session is denied, and as it is carried out and answered. */
  function Denied(origin: nat): Event {
    Sent(origin, Relay, "tools/call", CALL_PARAMS, Err(SessionExpired), At(true, LYING_EXPIRY))
  }

  function CarriedOut(origin: nat): Event {
    Sent(origin, Relay, "tools/call", CALL_PARAMS, Ok(JNull), At(true, Answers200("{3")))
  }

  lemma LyingRequest(w: World)
    requires w.found == Some(HERE) && w.script != [] && w.script[0] == LYING_EXPIRY
    ensures var s := RequestMethod(SETUP, CONNECTED.client.value, w, "tools/call", CALL_PARAMS);
            s.r == Err(SessionExpired) && s.w.script == w.script[1..] && s.w.origin == w.origin
            && Relays(s.w.log) == Relays(w.log) + [Denied(w.origin)]
  {
    hide Handshakes, Relays, Listed, WellTagged, EndsHandshake, AddPage, ReadEnvelope, Trim;
    AppendEvent(w.log, Denied(w.origin));
  }

  lemma GoodCall(w: World)
    requires w.found == Some(HERE) && w.script != [] && w.script[0] == Answers200("{3")
    ensures var s := RequestMethod(SETUP, CONNECTED.client.value, w, "tools/call", CALL_PARAMS);
            s.r == Ok(JNull) && s.w.origin == w.origin
            && Relays(s.w.log) == Relays(w.log) + [CarriedOut(w.origin)]
  {
    hide Request, Handshakes, Listed, WellTagged;
    ReadsAnswer("{3", 3, JNull);
    GoodRequest(SETUP, CONNECTED.client.value, w, Relay, "tools/call", CALL_PARAMS, "{3", JNull);
    AppendEvent(w.log, CarriedOut(w.origin));
  }

  const DROPPED := Started(NEW).(generation := 1)

  lemma Retries(w: World)
    requires w.script == [AGAIN, Answers200("{1"), Answers200("x"), Answers200("{2"), Answers200("{3")]
    ensures var s := RetryRequest(SETUP, DROPPED, w, "tools/call", CALL_PARAMS, true);
            s.r == Ok(JNull)
            && Relays(s.w.log) == Relays(w.log) + [CarriedOut(w.origin)]
  {
    hide ConnectEndpoint, RequestMethod, Handshakes, Relays, Listed, WellTagged, Invariant, Reports;
    Connects(DROPPED, w.Discover());
    GoodCall(ConnectEndpoint(SETUP, DROPPED, w.Discover(), HERE).w);
  }

  lemma CallsTwice(w: World)
    requires w.script == [AGAIN, LYING_EXPIRY, AGAIN, Answers200("{1"), Answers200("x"), Answers200("{2"),
         Answers200("{3")]
    ensures var t := HandleLine(SETUP, CONNECTED, w, "C");
            Relays(t.w.log) == Relays(w.log)
              + [Denied(w.origin), CarriedOut(w.origin)]
  {
    hide HandleLine, ConnectEndpoint, RequestMethod, RetryRequest, Handshakes, Relays, Listed, WellTagged;
    hide Invariant, Reports;
    ReadsRequest(CONNECTED, w, "C", 3, "tools/call", CALL_PARAMS);
    LyingRequest(w.Discover());
    Retries(RequestMethod(SETUP, CONNECTED.client.value, w.Discover(), "tools/call", CALL_PARAMS).w);
  }

  /** The hypothesis of AtMostOnce is needed: if a server executes a call and then reports its session as
      expired, the call is executed twice. */
  lemma LyingServerExecutesTwice()
    ensures var script := [FOUND, Answers200("{1"), Answers200("x"), Answers200("{2"), SILENCE,
                           AGAIN, LYING_EXPIRY, AGAIN, Answers200("{1"), Answers200("x"), Answers200("{2"),
                               Answers200("{3")];
            Executions(OfMessage(Relays(RunStream(SETUP, script, OLD_FILE, ["I", "C"]).w.log), 1)) == 2
  {
    hide HandleLine, Handshakes, Relays, Listed, WellTagged;
    var script := [FOUND, Answers200("{1"), Answers200("x"), Answers200("{2"), SILENCE,
                   AGAIN, LYING_EXPIRY, AGAIN, Answers200("{1"), Answers200("x"), Answers200("{2"), Answers200("{3")];
    assert ["I", "C"][..1] == ["I"] && ["I"][..0] == [];
    var r0, r1 := RunStream(SETUP, script, OLD_FILE, []), RunStream(SETUP, script, OLD_FILE, ["I"]);
    assert script[..4] == [FOUND, Answers200("{1"), Answers200("x"), Answers200("{2")];
    StartsOnline(r0.w);
    assert r1.w.script == [AGAIN, LYING_EXPIRY, AGAIN, Answers200("{1"), Answers200("x"), Answers200("{2"),
        Answers200("{3")];
    CallsTwice(r1.w);
    NoRelays();
    var es := [Denied(1), CarriedOut(1)];
    assert Relays(RunStream(SETUP, script, OLD_FILE, ["I", "C"]).w.log) == es;
    OfMessageUniform(es, 1, 1);
    assert Executions(es[1..]) == 1;
  }

  // ---------- An endpoint that was found and lost ----------

  const THERE := Endpoint("there", "token", 2, 2, "dir")

  /** Another orchestrator is found. */
  const MOVED := Answer(Some(THERE), NoAnswer(ConnectionFailed), false, 0, true)

  function NotGreeted(origin: nat): Event {
    Sent(origin, Handshake, "initialize", HELLO, Err(Unreachable), Post(THERE, Some(THERE), false, SILENCE.wire, false))
  }

  function PostedHere(origin: nat): Event {
    Sent(origin, Relay, "tools/call", CALL_PARAMS, Err(Unreachable), Post(HERE, None, true, SILENCE.wire, false))
  }

  lemma NoGreeting(w: World)
    requires w.script != [] && w.script[0] == MOVED && w.Advance().Next() == SILENCE
    ensures EnsureConnected(SETUP, CONNECTED, w) == Step(
              CONNECTED, w.Discover().Advance().Record(NotGreeted(w.origin)), Err(HandshakeFailed(Unreachable)))
  {
    hide ListToolsValue, InstallConnection, Handshakes, Relays, Listed, WellTagged, Invariant, Evolves, Reports;
    hide ReadEnvelope, Parse, AddPage, EndsHandshake, Trim;
    assert THERE.baseUrl == "there" && THERE != HERE by { assert THERE.pid != HERE.pid; }
  }

  lemma FindsAnother(w: World)
    requires w.script == [MOVED, SILENCE, SILENCE, SILENCE]
    ensures var t := HandleLine(SETUP, CONNECTED, w, "C");
            && t.p == CONNECTED && t.w.script == [SILENCE, SILENCE]
            && t.w.log == w.log + [NotGreeted(w.origin)]
  {
    hide HandleLine, EnsureConnected, Handshakes, Relays, Listed, WellTagged, Invariant, Reports;
    ReadsRequest(CONNECTED, w, "C", 3, "tools/call", CALL_PARAMS);
    NoGreeting(w);
  }

  lemma PostsHere(w: World)
    requires w.script != [] && w.script[0] == SILENCE && w.found == None
    ensures var s := RequestMethod(SETUP, CONNECTED.client.value, w, "tools/call", CALL_PARAMS);
            s.r == Err(Unreachable) && s.w == w.Advance().Record(PostedHere(w.origin))
  {
    hide Handshakes, Relays, Listed, WellTagged, EndsHandshake, AddPage, ReadEnvelope, Trim;
  }

  lemma CallsTheOld(w: World)
    requires w.script == [SILENCE, SILENCE]
    ensures HandleLine(SETUP, CONNECTED, w, "C").w.log == w.log + [PostedHere(w.origin)]
  {
    hide HandleLine, ConnectEndpoint, RequestMethod, Handshakes, Relays, Listed, WellTagged, Invariant, Reports;
    ReadsRequest(CONNECTED, w, "C", 3, "tools/call", CALL_PARAMS);
    PostsHere(w.Discover());
  }

  /** Not every message goes to the last endpoint that was ever discovered: when a new one could not be connected to and
      then none is found, the call goes to the old one. */
  lemma OldEndpointIsUsed()
    ensures var script := [FOUND, Answers200("{1"), Answers200("x"), Answers200("{2"), SILENCE,
                           MOVED, SILENCE, SILENCE, SILENCE];
            NotGreeted(1) in RunStream(SETUP, script, OLD_FILE, ["I", "C"]).w.log
            && RunStream(SETUP, script, OLD_FILE, ["I", "C", "C"]).w.log
                 == RunStream(SETUP, script, OLD_FILE, ["I", "C"]).w.log + [PostedHere(2)]
  {
    hide HandleLine, Handshakes, Relays, Listed, WellTagged, NotGreeted, PostedHere, Invariant, Later;
    var script := [FOUND, Answers200("{1"), Answers200("x"), Answers200("{2"), SILENCE,
                   MOVED, SILENCE, SILENCE, SILENCE];
    var l1, l2, l3 := ["I"], ["I", "C"], ["I", "C", "C"];
    assert l3[..2] == l2 && l2[..1] == l1 && l1[..0] == [];
    var r0, r1, r2 := RunStream(SETUP, script, OLD_FILE, []), RunStream(SETUP, script, OLD_FILE, l1),
                      RunStream(SETUP, script, OLD_FILE, l2);
    assert script[..4] == [FOUND, Answers200("{1"), Answers200("x"), Answers200("{2")];
    StartsOnline(r0.w);
    assert r1.w.script == [MOVED, SILENCE, SILENCE, SILENCE];
    FindsAnother(r1.w);
    CallsTheOld(r2.w);
  }
}
