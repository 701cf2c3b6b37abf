/** The MCP HTTP client, as functions on values: the specification of the classes in Mcp.dfy. */
module McpModel {
  import opened Common
  import opened Text
  import opened JsonRpcSelect

  // ---------- Errors ----------

  datatype ErrorKind = Unreachable | SessionExpired | Indeterminate | Http | Protocol | InvalidResponse {
    /** The request is known not to have been executed. */
    predicate RetryableBeforeExecution() {
      Unreachable? || SessionExpired?
    }

    predicate ExecutionUncertain() {
      Indeterminate? || InvalidResponse?
    }
  }

  datatype IoKind = ConnectionRefused | NotConnected | AddrNotAvailable | OtherIo

  datatype TransportError = HostNotFound | ConnectionFailed | Io(kind: IoKind) | Timeout | MalformedHttp
      | OtherTransport

  function ClassifyTransportError(error: TransportError): ErrorKind {
    match error
    case HostNotFound | ConnectionFailed => Unreachable
    case Io(kind) => if kind.OtherIo? then Indeterminate else Unreachable
    case Timeout | MalformedHttp => Indeterminate
    case OtherTransport => Http
  }

  // ---------- The environment ----------

  datatype Endpoint = Endpoint(baseUrl: string, token: string, pid: nat, startedAt: nat, dataDir: string)

  /** What happens on the wire to one POST; a body of `None` is lost while it is being read. */
  datatype Wire =
    | NoAnswer(error: TransportError)
    | Received(status: nat, session: Option<string>, body: Option<string>)

  /** One answer of the environment: each discovery of the endpoint, each POST, and each cache write uses
      one up and reads the field that concerns it.  `executed` says whether the orchestrator carries the
      request out, now or at any later time; `elapsed` is the time the interaction takes, in milliseconds. */
  datatype Answer = Answer(endpoint: Option<Endpoint>, wire: Wire, executed: bool, elapsed: nat, saved: bool)

  const SILENCE := Answer(None, NoAnswer(ConnectionFailed), false, 0, false)

  datatype Purpose = Handshake | Refresh | Relay

  /** One POST as the environment saw it: where it went, what the latest discovery had found, whether it carried a
      session id, what came back, and whether it was carried out. */
  datatype Post = Post(to: Endpoint, found: Option<Endpoint>, session: bool, wire: Wire, executed: bool)

  /** A message that was posted, with how the client classified the outcome. */
  datatype Event = Sent(
    origin: nat, purpose: Purpose, rpc: string, params: Json, outcome: Result<Json, ErrorKind>, post: Post)

  datatype CacheFile = CacheFile(version: nat, toolsResult: Json)

  /** The adversary is any finite script of answers.  When it is used up nothing answers any more, so every
      finite run of the proxy is the run against some script.  `loaded` is the catalogue found at start-up,
      `disk` the cache file, `diskCurrent` says whether the last write of it, if any, succeeded, and `found` is what the
      latest discovery of the endpoint gave. */
  datatype World = World(
    script: seq<Answer>, now: nat, origin: nat, log: seq<Event>,
    loaded: Option<Json>, disk: Option<CacheFile>, diskCurrent: bool, found: Option<Endpoint>)
  {
    function Next(): Answer {
      if script == [] then SILENCE else script[0]
    }

    function Advance(): World {
      this.(script := if script == [] then [] else script[1..], now := now + Next().elapsed)
    }

    /** Looking for the orchestrator uses up an answer too. */
    function Discover(): World {
      Advance().(found := Next().endpoint)
    }

    function Record(e: Event): World {
      this.(log := log + [e])
    }

    function Sleep(ms: nat): World {
      this.(now := now + ms)
    }
  }

  /** JSON parsing and URL validity are left to the environment as arbitrary functions. */
  datatype Config = Config(parse: string -> Option<Json>, urlValid: string -> bool, startupWait: nat)

  // ---------- Reading the log ----------

  /** The messages relayed on behalf of the upstream client. */
  function Relays(log: seq<Event>): seq<Event> {
    if log == [] then []
    else
      var e := log[|log| - 1];
      Relays(log[..|log| - 1]) + (if e.purpose.Relay? then [e] else [])
  }

  function NextCursor(page: Json): Option<string> {
    var cursor := page.GetString("nextCursor");
    if cursor.Some? && cursor.value != "" then cursor else None
  }

  function PageTools(page: Json): Option<seq<Json>> {
    var tools := page.Get("tools");
    if tools.Some? && tools.value.JArray? then Some(tools.value.items) else None
  }

  /** A page must hold an array of tools, and names the next page by a string that is not empty. */
  lemma PageMeaning(page: Json, tools: seq<Json>, cursor: string)
    ensures PageTools(page) == Some(tools) <==>
              page.JObject? && "tools" in page.fields && page.fields["tools"] == JArray(tools)
    ensures NextCursor(page) == Some(cursor) <==>
              && page.JObject? && "nextCursor" in page.fields && page.fields["nextCursor"] == JString(cursor)
              && cursor != ""
  {
  }

  /** The last page of the listing that ends a handshake. */
  predicate EndsHandshake(e: Event) {
    && e.purpose.Handshake? && e.rpc == "tools/list"
    && e.outcome.Ok? && PageTools(e.outcome.value).Some? && NextCursor(e.outcome.value).None?
  }

  function Handshakes(log: seq<Event>): nat {
    if log == [] then 0
    else Handshakes(log[..|log| - 1]) + (if EndsHandshake(log[|log| - 1]) then 1 else 0)
  }

  function Catalogue(tools: seq<Json>): (r: Json)
    ensures PageTools(r) == Some(tools)
  {
    JObject(map["tools" := JArray(tools)])
  }

  /** What the log says of the tool catalogue: the pages of the listing under way, and the last whole listing. */
  datatype Listing = Listing(pages: seq<Json>, last: Option<Json>)

  function AddPage(before: Listing, e: Event): Listing {
    if e.purpose.Relay? || e.rpc != "tools/list" || e.outcome.Err? || PageTools(e.outcome.value).None? then before
    else
      var earlier := if e.params.Get("cursor").Some? then before.pages else [];
      var pages := earlier + PageTools(e.outcome.value).value;
      Listing(pages, if NextCursor(e.outcome.value).Some? then before.last else Some(Catalogue(pages)))
  }

  function Listed(log: seq<Event>, loaded: Option<Json>): Listing {
    if log == [] then Listing([], loaded)
    else AddPage(Listed(log[..|log| - 1], loaded), log[|log| - 1])
  }

  lemma AppendEvent(log: seq<Event>, e: Event)
    ensures Relays(log + [e]) == Relays(log) + (if e.purpose.Relay? then [e] else [])
    ensures Handshakes(log + [e]) == Handshakes(log) + (if EndsHandshake(e) then 1 else 0)
    ensures forall loaded :: Listed(log + [e], loaded) == AddPage(Listed(log, loaded), e)
  {
    assert (log + [e])[..|log|] == log;
  }

  /** The messages the proxy sends on its own account. */
  predicate IsControl(rpc: string) {
    rpc == "initialize" || rpc == "notifications/initialized" || rpc == "tools/list"
  }

  /** The connection was never made: nothing can have been executed. */
  predicate NeverSent(wire: Wire) {
    wire.NoAnswer? && wire.error in {
      HostNotFound, ConnectionFailed, Io(ConnectionRefused), Io(NotConnected), Io(AddrNotAvailable)}
  }

  /** A session that the server no longer knows. */
  predicate SessionGone(post: Post) {
    post.session && post.wire.Received? && post.wire.status == 404 && post.wire.body.Some?
  }

  /** The message may have arrived, and what came back does not say. */
  predicate LostOnTheWay(wire: Wire) {
    if wire.Received? then wire.body.None? else wire.error in {Timeout, MalformedHttp, Io(OtherIo)}
  }

  /** A whole answer with a status between 200 and 299. */
  predicate Delivers(wire: Wire) {
    wire.Received? && wire.body.Some? && 200 <= wire.status <= 299
  }

  /** How an outcome is classified, told by the wire alone. */
  predicate Classified<T>(outcome: Result<T, ErrorKind>, post: Post) {
    && ((outcome == Err(Unreachable)) <==> NeverSent(post.wire))
    && ((outcome == Err(SessionExpired)) <==> SessionGone(post))
    && ((outcome == Err(Indeterminate)) <==> LostOnTheWay(post.wire))
    && (outcome.Ok? || outcome.error.Protocol? || outcome.error.InvalidResponse? <==> Delivers(post.wire))
  }

  predicate Genuine(e: Event) {
    (e.purpose.Relay? || IsControl(e.rpc)) && Classified(e.outcome, e.post)
  }

  predicate WellTagged(log: seq<Event>) {
    forall i | 0 <= i < |log| :: Genuine(log[i])
  }

  /** The script is only consumed, time only advances, the message being handled stays the same, every message that is
      not a relayed one is a control message, and every outcome is that of its wire. */
  predicate Later(w: World, w': World) {
    && |w'.script| <= |w.script| && w.now <= w'.now && w'.origin == w.origin && w'.loaded == w.loaded
    && (WellTagged(w.log) ==> WellTagged(w'.log))
  }

  /** What listing and shaking hands leave alone: no relayed message, no write of the cache file. */
  ghost predicate Quiet(w: World, w': World) {
    Later(w, w') && Relays(w'.log) == Relays(w.log) && w'.disk == w.disk && w'.diskCurrent == w.diskCurrent
  }

  lemma QuietTransitive(w: World, w': World, w'': World)
    requires Quiet(w, w') && Quiet(w', w'')
    ensures Quiet(w, w'')
  {
  }

  // ---------- The client ----------

  const DEFAULT_PROTOCOL_VERSION := "2025-03-26"

  datatype Client = Client(
    endpoint: Endpoint, sessionId: Option<string>, protocolVersion: string, nextId: nat, initialized: bool)

  function NewClient(endpoint: Endpoint): Client {
    Client(endpoint, None, DEFAULT_PROTOCOL_VERSION, 1, false)
  }

  datatype Called<+T> = Called(c: Client, w: World, r: Result<T, ErrorKind>)

  predicate IsSuccess(status: nat) {
    200 <= status < 300
  }

  /** One POST.  A session id is adopted from the first successful answer that carries one. */
  function Send(cfg: Config, c: Client, w: World, expectsResponse: bool): (s: Called<string>)
    requires cfg.urlValid(c.endpoint.baseUrl)
    ensures Later(w, s.w) && s.w.log == w.log && s.w.disk == w.disk && s.w.diskCurrent == w.diskCurrent
    ensures s.r.Ok? ==> |s.w.script| < |w.script|
    ensures s.c.(sessionId := c.sessionId) == c
  {
    var w' := w.Advance();
    match w.Next().wire
    case NoAnswer(error) => Called(c, w', Err(ClassifyTransportError(error)))
    case Received(status, session, body) =>
      if body.None? then Called(c, w', Err(Indeterminate))
      else if !IsSuccess(status) then
        Called(c, w', Err(if status == 404 && c.sessionId.Some? then SessionExpired else Http))
      else
        var c' := if c.sessionId.None? then c.(sessionId := session) else c;
        var skip := !expectsResponse && (Trim(body.value) == "" || status == 202 || status == 204);
        Called(c', w', Ok(if skip then "" else body.value))
  }

  /** What one POST did. */
  function PostOf(c: Client, w: World): Post {
    Post(c.endpoint, w.found, c.sessionId.Some?, w.Next().wire, w.Next().executed)
  }

  /** The result of a POST, told by the wire alone: which failures count as known not to have been executed, which leave
      that open, and that exactly a whole successful answer is a result, whose body is then returned unless no response
      is expected.  A session id is kept once it is held, and is otherwise the one a whole successful answer carries. */
  lemma SendMeaning(cfg: Config, c: Client, w: World, expectsResponse: bool)
    requires cfg.urlValid(c.endpoint.baseUrl)
    ensures var s, wire := Send(cfg, c, w, expectsResponse), w.Next().wire;
            && Classified(s.r, PostOf(c, w))
            && (s.r.Ok? && expectsResponse ==> Some(s.r.value) == wire.body)
            && s.w == w.Advance()
            && s.c.sessionId == (if c.sessionId.None? && Delivers(wire) then wire.session else c.sessionId)
            && !(s.r.Err? && (s.r.error.Protocol? || s.r.error.InvalidResponse?))
  {
    hide Trim;
  }

  /** Reads the envelope selected from a response body. */
  function ReadEnvelope(cfg: Config, body: string, id: nat): (r: Result<Json, ErrorKind>)
    ensures r.Err? ==> r.error.Protocol? || r.error.InvalidResponse?
  {
    match SelectJsonrpcResponse(cfg.parse, body, Some(id))
    case None => Err(InvalidResponse)
    case Some(envelope) =>
      if envelope.Get("error").Some? then Err(Protocol)
      else if envelope.Get("result").Some? then Ok(envelope.Get("result").value)
      else Err(InvalidResponse)
  }

  function Posted(
    c: Client, w: World, purpose: Purpose, rpc: string, params: Json, outcome: Result<Json, ErrorKind>): Event
  {
    Sent(w.origin, purpose, rpc, params, outcome, PostOf(c, w))
  }

  function Request(cfg: Config, c: Client, w: World, purpose: Purpose, rpc: string, params: Json): (s: Called<Json>)
    requires purpose.Relay? || IsControl(rpc)
    ensures Later(w, s.w)
    ensures s.r.Ok? ==> |s.w.script| < |w.script|
    ensures s.c.initialized == c.initialized && s.c.endpoint == c.endpoint
    ensures s.w.disk == w.disk && s.w.diskCurrent == w.diskCurrent
    ensures s.w.log == w.log || s.w.log == w.log + [Posted(c, w, purpose, rpc, params, s.r)]
    ensures s.w.log == w.log ==> s.r == Err(Protocol)
    ensures Handshakes(s.w.log) == Handshakes(w.log)
         + (if EndsHandshake(Posted(c, w, purpose, rpc, params, s.r)) then 1 else 0)
    ensures Listed(s.w.log, w.loaded) == AddPage(Listed(w.log, w.loaded), Posted(c, w, purpose, rpc, params, s.r))
    ensures !purpose.Relay? ==> Relays(s.w.log) == Relays(w.log)
  {
    hide ReadEnvelope, Handshakes, Relays, Listed, Trim;
    var id := c.nextId;
    var c0 := c.(nextId := id + 1);
    if !cfg.urlValid(c.endpoint.baseUrl) then Called(c0, w, Err(Protocol))
    else
      var s := Send(cfg, c0, w, true);
      var r := if s.r.Ok? then ReadEnvelope(cfg, s.r.value, id) else Err(s.r.error);
      SendMeaning(cfg, c0, w, true);
      AppendEvent(w.log, Posted(c, w, purpose, rpc, params, r));
      Called(s.c, s.w.Record(Posted(c, w, purpose, rpc, params, r)), r)
  }

  /** The body of a successful answer. */
  function Delivered(wire: Wire): Option<string> {
    if wire.Received? && IsSuccess(wire.status) then wire.body else None
  }

  /** The response with the request's own id in the body that was delivered. */
  function ResponseTo(cfg: Config, wire: Wire, id: nat): Option<Json> {
    var body := Delivered(wire);
    if body.Some? then SelectJsonrpcResponse(cfg.parse, body.value, Some(id)) else None
  }

  /** A request is sent exactly if the URL is valid; it has a result exactly if the first response with its own id, in
      the body of a successful answer, has one and no error; ids are never used twice. */
  lemma RequestMeaning(cfg: Config, c: Client, w: World, purpose: Purpose, rpc: string, params: Json)
    requires purpose.Relay? || IsControl(rpc)
    ensures var s, valid := Request(cfg, c, w, purpose, rpc, params), cfg.urlValid(c.endpoint.baseUrl);
            var response := ResponseTo(cfg, w.Next().wire, c.nextId);
            && s.w.log == (if valid then w.log + [Posted(c, w, purpose, rpc, params, s.r)] else w.log)
            && s.c.nextId == c.nextId + 1
            && (s.r.Ok? <==>
                  valid && response.Some? && response.value.Get("error").None? && response.value.Get("result").Some?)
            && (s.r.Ok? ==> response.value.Get("result") == Some(s.r.value))
            && (s.r == Err(SessionExpired) ==>
                  w.Next().wire.Received? && w.Next().wire.status == 404 && c.sessionId.Some?)
            && (s.r == Err(Protocol) <==> !valid || (response.Some? && response.value.Get("error").Some?))
            && (s.r == Err(InvalidResponse) <==>
                  valid && Delivers(w.Next().wire)
                  && (response.Some? ==> response.value.Get("error").None? && response.value.Get("result").None?))
  {
    hide SelectJsonrpcResponse, Handshakes, Relays, Listed, WellTagged, AddPage, Trim;
  }

  /** The logged outcome of a notification, which has no result. */
  function Acknowledged(r: Result<(), ErrorKind>): Result<Json, ErrorKind> {
    if r.Ok? then Ok(JNull) else Err(r.error)
  }

  function Notification(cfg: Config, c: Client, w: World, purpose: Purpose, rpc: string, params: Json): (s: Called<()>)
    requires purpose.Relay? || IsControl(rpc)
    ensures Later(w, s.w)
    ensures s.c.initialized == c.initialized && s.c.endpoint == c.endpoint
    ensures s.w.disk == w.disk && s.w.diskCurrent == w.diskCurrent
    ensures s.w.log == w.log || s.w.log == w.log + [Posted(c, w, purpose, rpc, params, Acknowledged(s.r))]
    ensures s.w.log == w.log ==> s.r == Err(Protocol)
    ensures rpc != "tools/list" || purpose.Relay? ==>
              Handshakes(s.w.log) == Handshakes(w.log) && Listed(s.w.log, w.loaded) == Listed(w.log, w.loaded)
    ensures !purpose.Relay? ==> Relays(s.w.log) == Relays(w.log)
  {
    hide Handshakes, Relays, Listed, Trim;
    if !cfg.urlValid(c.endpoint.baseUrl) then Called(c, w, Err(Protocol))
    else
      var s := Send(cfg, c, w, false);
      SendMeaning(cfg, c, w, false);
      var r := if s.r.Ok? then Ok(()) else Err(s.r.error);
      AppendEvent(w.log, Posted(c, w, purpose, rpc, params, Acknowledged(r)));
      Called(s.c, s.w.Record(Posted(c, w, purpose, rpc, params, Acknowledged(r))), r)
  }

  /** What `initialize` and its notification do to the world: they complete no handshake and list nothing. */
  ghost predicate Preliminary(w: World, w': World) {
    && Quiet(w, w')
    && Handshakes(w'.log) == Handshakes(w.log) && Listed(w'.log, w.loaded) == Listed(w.log, w.loaded)
  }

  function InitializeWith(cfg: Config, c: Client, w: World, params: Json): (s: Called<Json>)
    ensures Preliminary(w, s.w)
    ensures s.c.endpoint == c.endpoint
    ensures s.r.Ok? ==> s.c.initialized
  {
    if c.initialized then
      Called(c, w, Ok(JObject(map["protocolVersion" := JString(c.protocolVersion)])))
    else if !params.JObject? then Called(c, w, Err(Protocol))
    else
      var requested := params.GetString("protocolVersion");
      var c0 := c.(protocolVersion := requested.GetOr(c.protocolVersion));
      var answer := Request(cfg, c0, w, Handshake, "initialize", params);
      if answer.r.Err? then answer
      else
        var agreed := answer.r.value.GetString("protocolVersion");
        var c1 := answer.c.(protocolVersion := agreed.GetOr(answer.c.protocolVersion));
        var ready := Notification(cfg, c1, answer.w, Handshake, "notifications/initialized", JObject(map[]));
        if ready.r.Err? then Called(ready.c, ready.w, Err(ready.r.error))
        else Called(ready.c.(initialized := true), ready.w, answer.r)
  }

  /** The two messages of a handshake. */
  ghost predicate HandshakeSent(w: World, w': World, params: Json, result: Json, first: Post, second: Post) {
    w'.log == w.log + [Sent(w.origin, Handshake, "initialize", params, Ok(result), first)]
                    + [Sent(w.origin, Handshake, "notifications/initialized", JObject(map[]), Ok(JNull), second)]
  }

  /** A handshake that succeeds has posted `initialize` and its notification, in that order and nothing else, and
      adopted the version the server named, or else the requested one, or else its own. */
  lemma HandshakeMeaning(cfg: Config, c: Client, w: World, params: Json)
    requires !c.initialized && InitializeWith(cfg, c, w, params).r.Ok?
    ensures var s := InitializeWith(cfg, c, w, params);
            var requested := params.GetString("protocolVersion").GetOr(c.protocolVersion);
            && params.JObject?
            && s.c.protocolVersion == s.r.value.GetString("protocolVersion").GetOr(requested)
            && exists first, second :: HandshakeSent(w, s.w, params, s.r.value, first, second)
  {
    hide Handshakes, Relays, Listed, WellTagged, AddPage, ReadEnvelope;
    var c0 := c.(protocolVersion := params.GetString("protocolVersion").GetOr(c.protocolVersion));
    var answer := Request(cfg, c0, w, Handshake, "initialize", params);
    var agreed := answer.r.value.GetString("protocolVersion").GetOr(answer.c.protocolVersion);
    assert HandshakeSent(w, InitializeWith(cfg, c, w, params).w, params, answer.r.value, PostOf(c0, w),
        PostOf(answer.c.(protocolVersion := agreed), answer.w));
  }

  /** The handshake of a new client: the first message carries no session id, the second one carries the one that the
      first was answered with, and the version is one the two sides named, or the default. */
  lemma FreshHandshake(cfg: Config, endpoint: Endpoint, w: World, params: Json) returns (first: Post, second: Post)
    requires InitializeWith(cfg, NewClient(endpoint), w, params).r.Ok?
    ensures var s := InitializeWith(cfg, NewClient(endpoint), w, params);
            var requested := params.GetString("protocolVersion").GetOr("2025-03-26");
            && HandshakeSent(w, s.w, params, s.r.value, first, second)
            && first.to == endpoint && second.to == endpoint && s.c.endpoint == endpoint
            && !first.session && first.wire.Received? && second.wire.Received?
            && (second.session <==> first.wire.session.Some?)
            && s.c.sessionId == (if first.wire.session.Some? then first.wire.session else second.wire.session)
            && s.c.protocolVersion == s.r.value.GetString("protocolVersion").GetOr(requested)
  {
    hide Handshakes, Relays, Listed, WellTagged, AddPage, ReadEnvelope, Later, Trim;
    var c := NewClient(endpoint);
    var c0 := c.(protocolVersion := params.GetString("protocolVersion").GetOr(c.protocolVersion));
    var answer := Request(cfg, c0, w, Handshake, "initialize", params);
    var agreed := answer.r.value.GetString("protocolVersion").GetOr(answer.c.protocolVersion);
    first, second := PostOf(c0, w), PostOf(answer.c.(protocolVersion := agreed), answer.w);
    assert answer.c.sessionId == first.wire.session;
  }

  function DefaultParams(): Json {
    JObject(map[
      "protocolVersion" := JString(DEFAULT_PROTOCOL_VERSION),
      "capabilities" := JObject(map[]),
      "clientInfo" := JObject(map["name" := JString("cc-panes-ctl")])])
  }

  function EnsureInitialized(cfg: Config, c: Client, w: World): (s: Called<()>)
    ensures Preliminary(w, s.w)
    ensures s.c.endpoint == c.endpoint
    ensures s.r.Ok? ==> s.c.initialized
    ensures c.initialized ==> s == Called(c, w, Ok(()))
  {
    if c.initialized then Called(c, w, Ok(()))
    else
      var s := InitializeWith(cfg, c, w, DefaultParams());
      Called(s.c, s.w, if s.r.Ok? then Ok(()) else Err(s.r.error))
  }

  function CursorParams(cursor: Option<string>): Json {
    if cursor.Some? then JObject(map["cursor" := JString(cursor.value)]) else JObject(map[])
  }

  /** All tools read so far, and where the next page starts. */
  datatype Page = Page(tools: seq<Json>, next: Option<string>)

  /** What logging a page does: it extends the listing under way, and the last page completes it. */
  lemma PageLogged(
    before: Listing, c: Client, w: World, purpose: Purpose, cursor: Option<string>, outcome: Result<Json, ErrorKind>)
    requires !purpose.Relay?
    ensures var e := Posted(c, w, purpose, "tools/list", CursorParams(cursor), outcome);
            if outcome.Err? || PageTools(outcome.value).None? then AddPage(before, e) == before && !EndsHandshake(e)
            else
              && AddPage(before, e).pages == (if cursor.Some? then before.pages else [])
                  + PageTools(outcome.value).value
              && (NextCursor(outcome.value).Some? ==> AddPage(before, e).last == before.last && !EndsHandshake(e))
              && (NextCursor(outcome.value).None? ==>
                    && AddPage(before, e).last == Some(Catalogue(AddPage(before, e).pages))
                    && EndsHandshake(e) == purpose.Handshake?)
  {
  }

  /** One page of a listing, appended to the tools of the pages before it. */
  function ListPage(cfg: Config, c: Client, w: World, purpose: Purpose, cursor: Option<string>, tools: seq<Json>)
    : (s: Called<Page>)
    requires !purpose.Relay?
    requires tools == if cursor.Some? then Listed(w.log, w.loaded).pages else []
    ensures Quiet(w, s.w)
    ensures s.r.Ok? ==> |s.w.script| < |w.script| && Listed(s.w.log, w.loaded).pages == s.r.value.tools
    ensures Handshakes(s.w.log)
         == Handshakes(w.log) + (if purpose.Handshake? && s.r.Ok? && s.r.value.next.None? then 1 else 0)
    ensures Listed(s.w.log, w.loaded).last
         == if s.r.Ok? && s.r.value.next.None? then Some(Catalogue(s.r.value.tools)) else Listed(w.log, w.loaded).last
    ensures s.c.initialized == c.initialized && s.c.endpoint == c.endpoint
  {
    hide Request, Relays, Handshakes, Listed, WellTagged, Catalogue, NextCursor, PageTools;
    hide AddPage, EndsHandshake, Posted, CursorParams;
    var page := Request(cfg, c, w, purpose, "tools/list", CursorParams(cursor));
    PageLogged(Listed(w.log, w.loaded), c, w, purpose, cursor, page.r);
    if page.r.Err? then Called(page.c, page.w, Err(page.r.error))
    else
      var more := PageTools(page.r.value);
      if more.None? then Called(page.c, page.w, Err(InvalidResponse))
      else Called(page.c, page.w, Ok(Page(tools + more.value, NextCursor(page.r.value))))
  }

  /** A page fails as its request does, and one without an array of tools leaves open what the server understood. */
  lemma PageFails(cfg: Config, c: Client, w: World, purpose: Purpose, cursor: Option<string>, tools: seq<Json>)
    requires !purpose.Relay? && tools == if cursor.Some? then Listed(w.log, w.loaded).pages else []
    ensures var s := ListPage(cfg, c, w, purpose, cursor, tools);
            var page := Request(cfg, c, w, purpose, "tools/list", CursorParams(cursor)).r;
            s.r.Err? ==> s.r.error == if page.Err? then page.error else InvalidResponse
  {
    hide Request, Relays, Handshakes, Listed, WellTagged, Catalogue, NextCursor, PageTools, AddPage, EndsHandshake;
  }

  /** The pages from `cursor` on, appended to `tools`. */
  function ListPages(cfg: Config, c: Client, w: World, purpose: Purpose, cursor: Option<string>, tools: seq<Json>)
    : (s: Called<Json>)
    requires !purpose.Relay?
    requires tools == if cursor.Some? then Listed(w.log, w.loaded).pages else []
    ensures Quiet(w, s.w)
    ensures Handshakes(s.w.log) == Handshakes(w.log) + (if purpose.Handshake? && s.r.Ok? then 1 else 0)
    ensures Listed(s.w.log, w.loaded).last == if s.r.Ok? then Some(s.r.value) else Listed(w.log, w.loaded).last
    ensures s.c.initialized == c.initialized && s.c.endpoint == c.endpoint
    ensures s.r.Ok? ==> PageTools(s.r.value).Some?
    decreases |w.script|
  {
    hide *;
    var page := ListPage(cfg, c, w, purpose, cursor, tools);
    if page.r.Err? then Called(page.c, page.w, Err(page.r.error))
    else if page.r.value.next.Some? then
      var rest := ListPages(cfg, page.c, page.w, purpose, page.r.value.next, page.r.value.tools);
      QuietTransitive(w, page.w, rest.w);
      rest
    else Called(page.c, page.w, Ok(Catalogue(page.r.value.tools)))
  }

  function ListToolsValue(cfg: Config, c: Client, w: World, purpose: Purpose): (s: Called<Json>)
    requires !purpose.Relay?
    ensures Quiet(w, s.w)
    ensures Handshakes(s.w.log) == Handshakes(w.log) + (if purpose.Handshake? && s.r.Ok? then 1 else 0)
    ensures Listed(s.w.log, w.loaded).last == if s.r.Ok? then Some(s.r.value) else Listed(w.log, w.loaded).last
    ensures s.c.endpoint == c.endpoint
    ensures c.initialized || s.r.Ok? ==> s.c.initialized
    ensures s.r.Ok? ==> PageTools(s.r.value).Some?
  {
    var ready := EnsureInitialized(cfg, c, w);
    if ready.r.Err? then Called(ready.c, ready.w, Err(ready.r.error))
    else ListPages(cfg, ready.c, ready.w, purpose, None, [])
  }

  /** What relaying one message adds to the log: nothing, or that message. */
  ghost predicate Relayed(w: World, w': World, rpc: string, params: Json, outcome: Result<Json, ErrorKind>) {
    && Later(w, w')
    && Handshakes(w'.log) == Handshakes(w.log) && Listed(w'.log, w.loaded) == Listed(w.log, w.loaded)
    && w'.disk == w.disk && w'.diskCurrent == w.diskCurrent
    && (|| (Relays(w'.log) == Relays(w.log) && outcome.Err?)
        || exists post :: Relays(w'.log) == Relays(w.log) + [Sent(w.origin, Relay, rpc, params, outcome, post)])
  }

  function RequestMethod(cfg: Config, c: Client, w: World, rpc: string, params: Json): (s: Called<Json>)
    ensures Relayed(w, s.w, rpc, params, s.r)
    ensures s.c.endpoint == c.endpoint
    ensures c.initialized ==> s.c.initialized
  {
    hide Request, EnsureInitialized, Relays, Handshakes, Listed, WellTagged;
    var ready := EnsureInitialized(cfg, c, w);
    if ready.r.Err? then Called(ready.c, ready.w, Err(ready.r.error))
    else
      var s := Request(cfg, ready.c, ready.w, Relay, rpc, params);
      AppendEvent(ready.w.log, Posted(ready.c, ready.w, Relay, rpc, params, s.r));
      s
  }

  function NotificationMethod(cfg: Config, c: Client, w: World, rpc: string, params: Json): (s: Called<()>)
    ensures Relayed(w, s.w, rpc, params, Acknowledged(s.r))
    ensures s.c.endpoint == c.endpoint
    ensures c.initialized ==> s.c.initialized
  {
    hide Notification, EnsureInitialized, Relays, Handshakes, Listed, WellTagged;
    var ready := EnsureInitialized(cfg, c, w);
    if ready.r.Err? then Called(ready.c, ready.w, Err(ready.r.error))
    else
      var s := Notification(cfg, ready.c, ready.w, Relay, rpc, params);
      AppendEvent(ready.w.log, Posted(ready.c, ready.w, Relay, rpc, params, Acknowledged(s.r)));
      s
  }
}
