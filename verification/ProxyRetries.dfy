/** A run in which `initialize` makes the proxy send each of its own methods three times. */
module ProxyRetries {
  import opened Common
  import opened Text
  import opened McpModel
  import opened ProxyModel
  import opened ProxyTheorems
  import opened ProxyCatalogue
  import opened ProxyScenarios

  /** An attempt to connect that ends when the listing does not get through. */
  const ATTEMPT := [FOUND, Answers200("{1"), Answers200("x"), SILENCE]

  /** A greeting and a catalogue can be read from the orchestrator's answers. */
  predicate Speaks(cfg: Config) {
    && cfg.urlValid(HERE.baseUrl)
    && ReadEnvelope(cfg, "{1", 1) == Ok(JObject(map[])) && ReadEnvelope(cfg, "{2", 2) == Ok(NEW)
  }

  /** What a handshake sends. */
  function SentByHandshake(origin: nat, params: Json): seq<Event> {
    [Sent(origin, Handshake, "initialize", params, Ok(JObject(map[])), At(false, Answers200("{1"))),
     Sent(origin, Handshake, "notifications/initialized", JObject(map[]), Ok(JNull), At(true, Answers200("x")))]
  }

  /** What one attempt sends. */
  function SentByAttempt(origin: nat, params: Json): seq<Event> {
    SentByHandshake(origin, params)
      + [Sent(origin, Handshake, "tools/list", JObject(map[]), Err(Unreachable), At(true, SILENCE))]
  }

  lemma ShakesHands(cfg: Config, w: World, params: Json)
    requires Speaks(cfg) && params.JObject? && w.found == Some(HERE)
    requires |w.script| >= 2 && w.script[0] == Answers200("{1") && w.script[1] == Answers200("x")
    ensures var s := InitializeWith(cfg, NewClient(HERE), w, params);
            && s.r.Ok? && s.c.endpoint == HERE && s.c.initialized && s.c.nextId == 2 && s.c.sessionId.Some?
            && s.w == w.(script := w.script[2..], log := w.log + SentByHandshake(w.origin, params))
  {
    hide Request, Notification, ReadEnvelope, Handshakes, Relays, Listed, WellTagged;
    var c0 := NewClient(HERE).(protocolVersion := params.GetString("protocolVersion").GetOr(DEFAULT_PROTOCOL_VERSION));
    GoodRequest(cfg, c0, w, Handshake, "initialize", params, "{1", JObject(map[]));
    var r := Request(cfg, c0, w, Handshake, "initialize", params);
    GoodNotification(cfg, r.c, r.w, "notifications/initialized", JObject(map[]));
  }

  lemma ListingLost(cfg: Config, c: Client, w: World, purpose: Purpose)
    requires cfg.urlValid(c.endpoint.baseUrl) && c.initialized && w.script != [] && w.script[0] == SILENCE
    requires !purpose.Relay?
    ensures var s := ListToolsValue(cfg, c, w, purpose);
            && s.r == Err(Unreachable)
            && s.w == w.(
                 script := w.script[1..],
                 log := w.log + [Sent(w.origin, purpose, "tools/list", JObject(map[]), Err(Unreachable), PostOf(c, w))])
  {
    hide ReadEnvelope, Handshakes, Relays, Listed, WellTagged, Trim;
  }

  lemma AttemptFails(cfg: Config, p: Proxy, w: World)
    requires Speaks(cfg) && p.client.None? && p.initializeParams.Some? && p.initializeParams.value.JObject?
    requires |w.script| >= 4 && w.script[..4] == ATTEMPT
    ensures var s := EnsureConnected(cfg, p, w);
            && s.p == p && s.r == Err(ListingFailed(Unreachable))
            && s.w == w.(script := w.script[4..], found := Some(HERE),
                         log := w.log + SentByAttempt(w.origin, p.initializeParams.value))
  {
    hide InitializeWith, ListToolsValue, ReadEnvelope, Handshakes, Relays, Listed, WellTagged, Invariant, Reports;
    assert w.script[0] == FOUND && w.script[1] == Answers200("{1") && w.script[2] == Answers200("x")
        && w.script[3] == SILENCE;
    var w1, params := w.Discover(), p.initializeParams.value;
    ShakesHands(cfg, w1, params);
    var shaken := InitializeWith(cfg, NewClient(HERE), w1, params);
    ListingLost(cfg, shaken.c, shaken.w, Handshake);
    ConcatAssociates(w.log, SentByHandshake(w.origin, params),
        [Sent(w.origin, Handshake, "tools/list", JObject(map[]), Err(Unreachable), At(true, SILENCE))]);
  }

  const THRICE := ATTEMPT + ATTEMPT + ATTEMPT

  function SentByThree(origin: nat, params: Json): seq<Event> {
    SentByAttempt(origin, params) + SentByAttempt(origin, params) + SentByAttempt(origin, params)
  }

  /** Without a cache, the attempts go on every 100 ms until the deadline. */
  lemma ThreeAttempts(cfg: Config, p: Proxy, w: World)
    requires Speaks(cfg) && p.client.None? && p.initializeParams.Some? && p.initializeParams.value.JObject?
    requires p.cachedTools.None? && w.now == 0 && w.script == THRICE
    ensures var s := ConnectForInitialize(cfg, p, w, 200);
            s.r.Err? && s.p == p && s.w.log == w.log + SentByThree(w.origin, p.initializeParams.value)
  {
    hide EnsureConnected, ReadEnvelope, Handshakes, Relays, Listed, WellTagged, SentByAttempt, Invariant, Reports;
    var sent := SentByAttempt(w.origin, p.initializeParams.value);
    AttemptFails(cfg, p, w);
    var w1 := EnsureConnected(cfg, p, w).w.Sleep(100);
    AttemptFails(cfg, p, w1);
    var w2 := EnsureConnected(cfg, p, w1).w.Sleep(100);
    AttemptFails(cfg, p, w2);
    assert ConnectForInitialize(cfg, p, w2, 200) == EnsureConnected(cfg, p, w2);
    assert ConnectForInitialize(cfg, p, w1, 200) == ConnectForInitialize(cfg, p, w2, 200);
    assert w.log + sent + sent + sent == w.log + (sent + sent + sent);
  }

  /** A well-formed `initialize` to a proxy without a cache, while the listing never gets through. */
  lemma InitializeRetries(cfg: Config, line: string)
    requires Speaks(cfg) && cfg.startupWait == 200 && WellFormedInitialize(Message(cfg, line))
    ensures RunStream(cfg, THRICE, None, [line]).w.log == SentByThree(0, Params(Message(cfg, line)))
  {
    hide ConnectForInitialize, ReadEnvelope, Handshakes, Relays, Listed, WellTagged, SentByThree, Trim;
    hide Invariant, Reports, Later;
    var w, params := StartWorld(THRICE, None), Params(Message(cfg, line));
    var p := Reinitialized(WithResolver(None), params, params.GetString("protocolVersion").value);
    ThreeAttempts(cfg, p, w);
    assert [line][..0] == [];
    assert [] + SentByThree(0, params) == SentByThree(0, params);
  }

  lemma SendsStep(log: seq<Event>, e: Event, k: nat, rpc: string)
    ensures Sends(log + [e], k, rpc) == Sends(log, k, rpc) + (if e.origin == k && e.rpc == rpc then 1 else 0)
  {
    assert (log + [e])[..|log|] == log;
  }

  lemma SendsInHandshake(log: seq<Event>, k: nat, params: Json, rpc: string)
    ensures Sends(log + SentByHandshake(k, params), k, rpc)
         == Sends(log, k, rpc) + (if rpc == "initialize" || rpc == "notifications/initialized" then 1 else 0)
  {
    var e := SentByHandshake(k, params);
    assert e[0].rpc != e[1].rpc;
    SendsStep(log, e[0], k, rpc);
    SendsStep(log + [e[0]], e[1], k, rpc);
    assert log + e == log + [e[0]] + [e[1]];
  }

  lemma ListIsNoGreeting()
    ensures "tools/list" != "initialize" && "tools/list" != "notifications/initialized"
  {
    assert "tools/list"[0] != "initialize"[0] && "tools/list"[0] != "notifications/initialized"[0];
  }

  lemma SendsInAttempt(log: seq<Event>, k: nat, params: Json, rpc: string)
    requires IsControl(rpc)
    ensures Sends(log + SentByAttempt(k, params), k, rpc) == Sends(log, k, rpc) + 1
  {
    hide SentByHandshake, Sends;
    var last := Sent(k, Handshake, "tools/list", JObject(map[]), Err(Unreachable), At(true, SILENCE));
    SendsInHandshake(log, k, params, rpc);
    SendsStep(log + SentByHandshake(k, params), last, k, rpc);
    ConcatAssociates(log, SentByHandshake(k, params), [last]);
    ListIsNoGreeting();
  }

  lemma SendsInThree(k: nat, params: Json, rpc: string)
    requires IsControl(rpc)
    ensures Sends(SentByThree(k, params), k, rpc) == 3
  {
    hide SentByAttempt, IsControl;
    var sent := SentByAttempt(k, params);
    SendsInAttempt([], k, params, rpc);
    assert [] + sent == sent;
    SendsInAttempt(sent, k, params, rpc);
    SendsInAttempt(sent + sent, k, params, rpc);
  }

  lemma SetupSpeaks()
    ensures Speaks(SETUP) && WellFormedInitialize(Message(SETUP, "I"))
  {
    hide ReadEnvelope;
    ReadsAnswer("{1", 1, JObject(map[]));
    ReadsAnswer("{2", 2, NEW);
    Kinds();
  }

  /** One `initialize` that finds an orchestrator whose listing does not get through sends each of the proxy's own
      methods three times. */
  lemma ControlMethodsSentThrice(rpc: string)
    requires IsControl(rpc)
    ensures Sends(RunStream(SETUP, THRICE, None, ["I"]).w.log, 0, rpc) == 3
  {
    hide RunStream, SentByThree, IsControl, Speaks, WellFormedInitialize, Message;
    SetupSpeaks();
    InitializeRetries(SETUP, "I");
    SendsInThree(0, Params(Message(SETUP, "I")), rpc);
  }

  ghost predicate WithinTwo(
    cfg: Config, script: seq<Answer>, disk: Option<CacheFile>, lines: seq<string>, rpc: string)
  {
    forall k | 0 <= k < |lines| :: Sends(RunStream(cfg, script, disk, lines).w.log, k, rpc) <= 2
  }

  /** The methods of which no message ever causes more than two sends are exactly those the proxy does
      not use itself. */
  lemma TwoSendsExactly(rpc: string)
    ensures (forall cfg, script, disk, lines :: WithinTwo(cfg, script, disk, lines, rpc)) <==> !IsControl(rpc)
  {
    hide RunStream, IsControl;
    if IsControl(rpc) {
      ControlMethodsSentThrice(rpc);
      assert !WithinTwo(SETUP, THRICE, None, ["I"], rpc);
    } else {
      forall cfg, script, disk, lines ensures WithinTwo(cfg, script, disk, lines, rpc) {
        forall k | 0 <= k < |lines| ensures Sends(RunStream(cfg, script, disk, lines).w.log, k, rpc) <= 2 {
          AtMostTwoSends(cfg, script, disk, lines, k, rpc);
        }
      }
    }
  }
}
