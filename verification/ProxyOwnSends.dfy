/** Which messages can be sent on more than twice under their own method, counting what the proxy sends for itself. */
module ProxyOwnSends {
  import opened Common
  import opened Text
  import opened McpModel
  import opened ProxyModel
  import opened ProxyTheorems
  import opened ProxyCatalogue
  import opened ProxyScenarios
  import opened ProxyRetries
  import opened ProxyDrift

  /** The proxy uses the method itself, and handling the message makes it connect: all such messages but the notice that
      the client is ready, and an `initialize` that is refused. */
  predicate MakesItConnect(message: Json) {
    && Rpc(message).Some? && IsControl(Rpc(message).value)
    && !InitializedNotice(message)
    && (IsRequest(message, "initialize") ==> WellFormedInitialize(message))
  }

  /** How often the method was sent while the last line was handled. */
  ghost function SentForLast(
    cfg: Config, script: seq<Answer>, disk: Option<CacheFile>, lines: seq<string>, rpc: string): int
    requires lines != []
  {
    var n := |lines| - 1;
    Sends(RunStream(cfg, script, disk, lines).w.log, n, rpc)
        - Sends(RunStream(cfg, script, disk, lines[..n]).w.log, n, rpc)
  }

  // ---------- Messages that make it send nothing of their own ----------

  lemma RefusedSendsNothing(cfg: Config, p: Proxy, w: World, line: string)
    requires var message := Message(cfg, line);
             InitializedNotice(message) || (IsRequest(message, "initialize") && !WellFormedInitialize(message))
    ensures HandleLine(cfg, p, w, line).w == w
  {
    hide ConnectForInitialize, ForwardNotification, HandleToolsList, HandleDownstreamRequest;
    hide Handshakes, Relays, Listed, WellTagged, Trim, Invariant, Reports, Later;
  }

  lemma AtMostTwoOtherwise(
    cfg: Config, script: seq<Answer>, disk: Option<CacheFile>, lines: seq<string>, message: Json)
    requires lines != [] && Message(cfg, lines[|lines| - 1]) == message && Rpc(message).Some?
    requires !MakesItConnect(message)
    ensures SentForLast(cfg, script, disk, lines, Rpc(message).value) <= 2
  {
    hide HandleLine, Sends, Message, Handshakes, Relays, Listed, WellTagged, Invariant, Later, IsControl;
    var n, rpc := |lines| - 1, Rpc(message).value;
    if IsControl(rpc) {
      var before := RunStream(cfg, script, disk, lines[..n]);
      RefusedSendsNothing(cfg, before.p, before.w, lines[n]);
    } else {
      AtMostTwoSends(cfg, script, disk, lines, n, rpc);
    }
  }

  // ---------- Two connections and a send in between ----------

  /** The orchestrator is found, greets and lists, is lost, and is found and lost again. */
  const LOST_TWICE := [FOUND, Answers200("{1"), Answers200("x"), Answers200("{2"), SILENCE, SILENCE] + ATTEMPT

  function FirstListing(origin: nat): Event {
    Sent(origin, Handshake, "tools/list", JObject(map[]), Ok(NEW), At(true, Answers200("{2")))
  }

  lemma ListingFound(cfg: Config, c: Client, w: World)
    requires Speaks(cfg) && c.endpoint == HERE && c.initialized && c.nextId == 2 && c.sessionId.Some?
    requires w.found == Some(HERE)
    requires w.script != [] && w.script[0] == Answers200("{2")
    ensures var s := ListToolsValue(cfg, c, w, Handshake);
            && s.r == Ok(NEW) && s.c.endpoint == HERE && s.c.initialized && s.c.sessionId.Some?
            && s.w == w.(script := w.script[1..], log := w.log + [FirstListing(w.origin)])
  {
    hide ReadEnvelope, Handshakes, Relays, Listed, WellTagged, Trim, Request;
    GoodRequest(cfg, c, w, Handshake, "tools/list", CursorParams(None), "{2", NEW);
    assert NextCursor(NEW) == None && PageTools(NEW) == Some([JNull]);
    assert [] + [JNull] == [JNull];
  }

  /** Started, with a catalogue to show that is not the orchestrator's, and not connected. */
  predicate Waits(p: Proxy) {
    && p.client.None? && p.activeEndpoint.None? && p.cachedTools == Some(OLD)
    && p.initializeParams.Some? && p.initializeParams.value.JObject?
  }

  /** What the first connection sends. */
  function SentByConnection(origin: nat, params: Json): seq<Event> {
    SentByHandshake(origin, params) + [FirstListing(origin)]
  }

  lemma FirstConnection(cfg: Config, p: Proxy, w: World)
    requires Speaks(cfg) && Waits(p) && w.script == LOST_TWICE
    ensures var s := EnsureConnected(cfg, p, w);
            && s.r.Ok? && s.p.client.Some? && s.p.client.value.endpoint == HERE && s.p.client.value.initialized
            && s.p.client.value.sessionId.Some? && s.p.initializeParams == p.initializeParams
            && s.w.script == [SILENCE] + ATTEMPT && s.w.origin == w.origin && s.w.found == Some(HERE)
            && s.w.log == w.log + SentByConnection(w.origin, p.initializeParams.value)
  {
    hide InitializeWith, ListToolsValue, Speaks, ATTEMPT, Handshakes, Relays, Listed, WellTagged;
    hide Invariant, Evolves, Reports, Later, CacheOnDisk, OLD, NEW;
    var w1, params := w.Discover(), p.initializeParams.value;
    ShakesHands(cfg, w1, params);
    var shaken := InitializeWith(cfg, NewClient(HERE), w1, params);
    ListingFound(cfg, shaken.c, shaken.w);
    OldIsNotNew();
    ConcatAssociates(w.log, SentByHandshake(w.origin, params),
        [FirstListing(w.origin)]);
  }

  lemma CallLost(cfg: Config, c: Client, w: World, rpc: string, params: Json)
    requires Speaks(cfg) && c.endpoint == HERE && c.initialized && w.script != [] && w.script[0] == SILENCE
    requires c.sessionId.Some? && w.found == Some(HERE)
    ensures var s := RequestMethod(cfg, c, w, rpc, params);
            && s.r == Err(Unreachable) && s.w == w.(
                 script := w.script[1..],
                 log := w.log + [Sent(w.origin, Relay, rpc, params, Err(Unreachable), PostOf(c, w))])
    ensures var s := NotificationMethod(cfg, c, w, rpc, params);
            && s.r == Err(Unreachable) && s.w == w.(
                 script := w.script[1..],
                 log := w.log + [Sent(w.origin, Relay, rpc, params, Err(Unreachable), PostOf(c, w))])
  {
    hide ReadEnvelope, Handshakes, Relays, Listed, WellTagged, Trim;
  }

  /** What is sent in all: two handshakes, and `e` between them. */
  function SentBetween(origin: nat, hello: Json, e: Event): seq<Event> {
    SentByConnection(origin, hello) + [e] + SentByAttempt(origin, hello)
  }

  lemma SecondConnection(cfg: Config, p: Proxy, w: World, log: seq<Event>, hello: Json, e: Event)
    requires Speaks(cfg) && p.client.None? && p.initializeParams == Some(hello) && hello.JObject?
    requires w.script == ATTEMPT && w.log == log + SentByConnection(w.origin, hello) + [e]
    ensures EnsureConnected(cfg, p, w).w.log == log + SentBetween(w.origin, hello, e)
    ensures EnsureConnected(cfg, p, w).r.Err?
  {
    hide EnsureConnected, Speaks, SentByAttempt, SentByConnection;
    assert w.script[..4] == ATTEMPT;
    AttemptFails(cfg, p, w);
    var a, b, c := SentByConnection(w.origin, hello), [e], SentByAttempt(w.origin, hello);
    assert log + a + b + c == log + (a + b + c);
  }

  lemma SpeaksHere(cfg: Config)
    requires Speaks(cfg)
    ensures cfg.urlValid(HERE.baseUrl)
  {
  }

  lemma RefreshBetween(cfg: Config, p: Proxy, w: World)
    requires Speaks(cfg) && Waits(p) && w.script == LOST_TWICE
    ensures RefreshToolsWithReconnect(cfg, p, w).w.log == w.log + SentBetween(w.origin, p.initializeParams.value,
              Sent(w.origin, Refresh, "tools/list", JObject(map[]), Err(Unreachable), At(true, SILENCE)))
  {
    hide EnsureConnected, ListToolsValue, InstallTools, SentBetween, SentByConnection, Speaks, ATTEMPT;
    hide Handshakes, Relays, Listed, WellTagged, Invariant, Evolves, Reports, Later;
    FirstConnection(cfg, p, w);
    var ready := EnsureConnected(cfg, p, w);
    SpeaksHere(cfg);
    ListingLost(cfg, ready.p.client.value, ready.w, Refresh);
    var first := ListToolsValue(cfg, ready.p.client.value, ready.w, Refresh);
    assert ([SILENCE] + ATTEMPT)[1..] == ATTEMPT && ([SILENCE] + ATTEMPT)[0] == SILENCE;
    SecondConnection(cfg, ResetDownstream(Adopt(ready.p, first.c)), first.w, w.log, p.initializeParams.value,
        Sent(w.origin, Refresh, "tools/list", JObject(map[]), Err(Unreachable), At(true, SILENCE)));
  }

  lemma ForwardBetween(cfg: Config, p: Proxy, w: World, rpc: string, params: Json, se: bool)
    requires Speaks(cfg) && Waits(p) && w.script == LOST_TWICE
    ensures var sent := w.log + SentBetween(w.origin, p.initializeParams.value,
                Sent(w.origin, Relay, rpc, params, Err(Unreachable), At(true, SILENCE)));
            && ForwardRequest(cfg, p, w, rpc, params, se).w.log == sent
            && ForwardNotification(cfg, p, w, rpc, params).w.log == sent
  {
    hide EnsureConnected, RequestMethod, NotificationMethod, SentBetween, SentByConnection, Speaks, ATTEMPT;
    hide Handshakes, Relays, Listed, WellTagged, Invariant, Evolves, Reports, Later, Relayed;
    FirstConnection(cfg, p, w);
    var ready, e := EnsureConnected(cfg, p, w), Sent(w.origin, Relay, rpc, params, Err(Unreachable), At(true, SILENCE));
    assert ([SILENCE] + ATTEMPT)[1..] == ATTEMPT && ([SILENCE] + ATTEMPT)[0] == SILENCE;
    CallLost(cfg, ready.p.client.value, ready.w, rpc, params);
    var first := RequestMethod(cfg, ready.p.client.value, ready.w, rpc, params);
    SecondConnection(cfg, ResetDownstream(Adopt(ready.p, first.c)), first.w, w.log, p.initializeParams.value, e);
    var notice := NotificationMethod(cfg, ready.p.client.value, ready.w, rpc, params);
    SecondConnection(cfg, ResetDownstream(Adopt(ready.p, notice.c)), notice.w, w.log, p.initializeParams.value, e);
  }

  // ---------- Three sends ----------

  lemma SendsBetween(log: seq<Event>, k: nat, hello: Json, e: Event, rpc: string)
    requires IsControl(rpc) && e.origin == k && e.rpc == rpc
    ensures Sends(log + SentBetween(k, hello, e), k, rpc) == Sends(log, k, rpc) + 3
  {
    hide SentByHandshake, SentByAttempt, Sends;
    var last := FirstListing(k);
    var h, c, a := SentByHandshake(k, hello), SentByConnection(k, hello), SentByAttempt(k, hello);
    SendsInHandshake(log, k, hello, rpc);
    SendsStep(log + h, last, k, rpc);
    assert log + c == log + h + [last];
    ListIsNoGreeting();
    SendsStep(log + c, e, k, rpc);
    SendsInAttempt(log + c + [e], k, hello, rpc);
    assert log + (c + [e] + a) == log + c + [e] + a;
  }

  ghost predicate SentThrice(w: World, t: Turn, rpc: string) {
    Sends(t.w.log, w.origin, rpc) == Sends(w.log, w.origin, rpc) + 3
  }

  lemma RequestBetween(cfg: Config, p: Proxy, w: World, line: string)
    requires Speaks(cfg) && Waits(p) && w.script == LOST_TWICE
    requires MakesItConnect(Message(cfg, line)) && Message(cfg, line).Get("id").Some?
    requires Rpc(Message(cfg, line)) != Some("initialize")
    ensures SentThrice(w, HandleLine(cfg, p, w, line), Rpc(Message(cfg, line)).value)
  {
    hide RefreshToolsWithReconnect, ForwardRequest, ForwardNotification, SentBetween, Speaks, LOST_TWICE, Sends;
    hide Handshakes, Relays, Listed, WellTagged, Trim, Invariant, Reports, Later;
    var message := Message(cfg, line);
    var rpc, params, hello := Rpc(message).value, Params(message), p.initializeParams.value;
    if rpc == "tools/list" {
      RefreshBetween(cfg, p, w);
      SendsBetween(w.log, w.origin, hello,
          Sent(w.origin, Refresh, "tools/list", JObject(map[]), Err(Unreachable), At(true, SILENCE)), rpc);
    } else {
      ForwardBetween(cfg, p, w, rpc, params, rpc == "tools/call");
      SendsBetween(w.log, w.origin, hello,
          Sent(w.origin, Relay, rpc, params, Err(Unreachable), At(true, SILENCE)), rpc);
    }
  }

  lemma NoticeBetween(cfg: Config, p: Proxy, w: World, line: string)
    requires Speaks(cfg) && Waits(p) && w.script == LOST_TWICE
    requires MakesItConnect(Message(cfg, line)) && Message(cfg, line).Get("id").None?
    ensures SentThrice(w, HandleLine(cfg, p, w, line), Rpc(Message(cfg, line)).value)
  {
    hide ForwardNotification, Respond, SentBetween, Speaks, LOST_TWICE, Sends, IsRequest, WellFormedInitialize;
    hide Handshakes, Relays, Listed, WellTagged, Trim, Invariant, Reports, Later;
    var message := Message(cfg, line);
    var rpc, params, hello := Rpc(message).value, Params(message), p.initializeParams.value;
    ForwardBetween(cfg, p, w, rpc, params, false);
    SendsBetween(w.log, w.origin, hello, Sent(w.origin, Relay, rpc, params, Err(Unreachable), At(true, SILENCE)), rpc);
  }

  // ---------- Two lines and an orchestrator for any message ----------

  /** Reads the message from the line "M". */
  function Reading(message: Json): Config {
    Config(text => if text == "M" then Some(message) else Parse(text), _ => true, 200)
  }

  lemma ReadsAs(message: Json, body: string, id: nat, result: Json)
    requires (body, id, result) in {("{1", 1, JObject(map[])), ("{2", 2, NEW)}
    ensures ReadEnvelope(Reading(message), body, id) == Ok(result)
  {
    hide Trim, NEW;
    ShortTexts();
    var envelope := Answering(id, result);
    assert Parse(body) == Some(envelope) && Reading(message).parse(body) == Some(envelope);
    assert envelope.Get("id") == Some(JInt(id)) && envelope.Get("error") == None
        && envelope.Get("result") == Some(result);
  }

  lemma TrimM()
    ensures Trim("M") == "M"
  {
  }

  lemma ReadingSpeaks(message: Json)
    ensures Speaks(Reading(message)) && Reading(message).startupWait == 200
    ensures Message(Reading(message), "M") == message
    ensures Message(Reading(message), "I") == Rpcs(1, "initialize", HELLO)
  {
    hide ReadEnvelope, Trim;
    ShortTexts();
    assert Trim("M") == "M" by { TrimM(); }
    ReadsAs(message, "{1", 1, JObject(map[]));
    ReadsAs(message, "{2", 2, NEW);
  }

  /** The first line starts the session while nobody can be reached. */
  lemma Begins(cfg: Config, w: World)
    requires Message(cfg, "I") == Rpcs(1, "initialize", HELLO) && w.script == [SILENCE] + LOST_TWICE
    ensures var t := HandleLine(cfg, WithResolver(OLD_FILE), w, "I"); Waits(t.p) && t.w.script == LOST_TWICE
  {
    var message := Rpcs(1, "initialize", HELLO);
    assert WellFormedInitialize(message) && Params(message) == HELLO;
    hide HandleLine, Message, Handshakes, Relays, Listed, WellTagged, LOST_TWICE, Invariant, Later;
    hide WellFormedInitialize;
    SilentLine(cfg, WithResolver(OLD_FILE), w, "I");
    assert ([SILENCE] + LOST_TWICE)[1..] == LOST_TWICE;
  }

  lemma MessageTwice(cfg: Config, p: Proxy, w: World, message: Json)
    requires Speaks(cfg) && Waits(p) && w.script == LOST_TWICE && Message(cfg, "M") == message
    requires MakesItConnect(message) && !WellFormedInitialize(message)
    ensures SentThrice(w, HandleLine(cfg, p, w, "M"), Rpc(message).value)
  {
    hide HandleLine, Speaks, Waits, LOST_TWICE, SentThrice, Message;
    if message.Get("id").Some? {
      RequestBetween(cfg, p, w, "M");
    } else {
      NoticeBetween(cfg, p, w, "M");
    }
  }

  lemma SecondLine(message: Json)
    requires MakesItConnect(message) && !WellFormedInitialize(message)
    ensures SentForLast(Reading(message), [SILENCE] + LOST_TWICE, OLD_FILE, ["I", "M"], Rpc(message).value) == 3
  {
    hide HandleLine, Message, Sends, Reading, Speaks, MakesItConnect, LOST_TWICE, Waits, OLD_FILE;
    hide Handshakes, Relays, Listed, WellTagged, Invariant, Later, WellFormedInitialize;
    var cfg, script := Reading(message), [SILENCE] + LOST_TWICE;
    ReadingSpeaks(message);
    assert ["I", "M"][..1] == ["I"] && ["I"][..0] == [];
    var first, before := RunStream(cfg, script, OLD_FILE, []), RunStream(cfg, script, OLD_FILE, ["I"]);
    assert first.p == WithResolver(OLD_FILE) && first.w.script == script;
    Begins(cfg, first.w);
    var t := HandleLine(cfg, first.p, first.w, "I");
    assert before.p == t.p && before.w == t.w.(origin := 1);
    MessageTwice(cfg, before.p, before.w, message);
  }

  lemma FirstLine(message: Json)
    requires MakesItConnect(message) && WellFormedInitialize(message)
    ensures SentForLast(Reading(message), THRICE, None, ["M"], Rpc(message).value) == 3
  {
    hide SentByThree, Speaks, Message, Reading, IsControl, THRICE, WellFormedInitialize;
    var cfg := Reading(message);
    ReadingSpeaks(message);
    InitializeRetries(cfg, "M");
    assert ["M"][..0] == [];
    SendsInThree(0, Params(message), Rpc(message).value);
  }

  /** Some run sends the message's own method more than twice while it handles the message. */
  ghost predicate CanExceedTwo(message: Json) {
    Rpc(message).Some? && exists cfg, script, disk, lines ::
      && lines != [] && Message(cfg, lines[|lines| - 1]) == message
      && SentForLast(cfg, script, disk, lines, Rpc(message).value) > 2
  }

  lemma HasMethod(message: Json)
    requires MakesItConnect(message)
    ensures Rpc(message).Some?
  {
  }

  lemma ConnectingExceeds(message: Json)
    requires MakesItConnect(message)
    ensures CanExceedTwo(message)
  {
    hide SentForLast, Message, MakesItConnect, Reading, THRICE, LOST_TWICE, OLD_FILE, WellFormedInitialize, Rpc, Speaks;
    ReadingSpeaks(message);
    HasMethod(message);
    if WellFormedInitialize(message) {
      var lines := ["M"];
      FirstLine(message);
      assert lines[|lines| - 1] == "M" && SentForLast(Reading(message), THRICE, None, lines, Rpc(message).value) > 2;
    } else {
      var lines, script := ["I", "M"], [SILENCE] + LOST_TWICE;
      SecondLine(message);
      assert lines[|lines| - 1] == "M"
          && SentForLast(Reading(message), script, OLD_FILE, lines, Rpc(message).value) > 2;
    }
  }

  /** The bound of two sends can be exceeded for exactly the messages with one of the proxy's own methods that make it
      connect: a `tools/list` of either kind, an `initialize` that starts a session or has no id, and a
      `notifications/initialized` that is sent as a request. */
  lemma ExceedsExactly(message: Json)
    ensures CanExceedTwo(message) <==> MakesItConnect(message)
  {
    hide SentForLast, Message, MakesItConnect, Rpc;
    if CanExceedTwo(message) && !MakesItConnect(message) {
      var cfg, script, disk, lines :|
        && lines != [] && Message(cfg, lines[|lines| - 1]) == message
        && SentForLast(cfg, script, disk, lines, Rpc(message).value) > 2;
      AtMostTwoOtherwise(cfg, script, disk, lines, message);
    }
    if MakesItConnect(message) { ConnectingExceeds(message); }
  }
}
