/** Where messages are posted, and what an honest environment means for a run. */
module ProxyPosts {
  import opened Common
  import opened Text
  import opened McpModel
  import opened ProxyModel
  import opened ProxyTheorems

  // ---------- What connecting does about the endpoint ----------

  lemma ConnectsThere(cfg: Config, p: Proxy, w: World, endpoint: Endpoint)
    requires ConnectEndpoint(cfg, p, w, endpoint).r.Ok?
    ensures var s := ConnectEndpoint(cfg, p, w, endpoint);
            && s.p.activeEndpoint == Some(endpoint) && s.p.client.Some?
            && s.p.client.value.endpoint == endpoint && s.p.client.value.initialized
            && s.p.generation == p.generation + 1
  {
    hide InitializeWith, ListToolsValue, PersistToolsCache, Handshakes, Relays, Listed, WellTagged;
    hide Invariant, Evolves, Reports, Later, Quiet, Preliminary;
  }

  /** Success means a connection to the endpoint that was just discovered.  If none was, whatever is held is kept; if it
      is the one already connected to, nothing is posted; any other one is connected to anew, or nothing changes. */
  lemma ConnectionIsToTheDiscovered(cfg: Config, p: Proxy, w: World)
    requires Invariant(p, w)
    ensures var s, endpoint := EnsureConnected(cfg, p, w), w.Next().endpoint;
            if endpoint.None? then s.p == p && s.w.log == w.log && (s.r.Ok? <==> p.client.Some?)
            else if p.client.Some? && p.client.value.endpoint == endpoint.value then
              s.r.Ok? && s.p == p && s.w.log == w.log
            else if s.r.Ok? then
              && s.p.client.Some? && s.p.client.value.endpoint == endpoint.value && s.p.client.value.initialized
              && s.p.activeEndpoint == endpoint && s.p.generation == p.generation + 1
            else s.p == p
  {
    hide ConnectEndpoint, Handshakes, Relays, Listed, WellTagged, Evolves, Reports, Later, CacheOnDisk;
    var endpoint := w.Next().endpoint;
    if endpoint.Some? && ConnectEndpoint(cfg, p, w.Discover(), endpoint.value).r.Ok? {
      ConnectsThere(cfg, p, w.Discover(), endpoint.value);
    }
  }

  // ---------- Where a message is aimed ----------

  /** Where the last completed handshake took place. */
  function Shaken(log: seq<Event>): Option<Endpoint> {
    if log == [] then None
    else
      var e := log[|log| - 1];
      if EndsHandshake(e) then Some(e.post.to) else Shaken(log[..|log| - 1])
  }

  /** Handshakes go to the endpoint just discovered.  Everything else goes where the last handshake was completed, and
      that is the endpoint just discovered, if there was one. */
  predicate Aimed(before: seq<Event>, e: Event) {
    if e.purpose.Handshake? then e.post.found == Some(e.post.to)
    else Shaken(before) == Some(e.post.to) && (e.post.found.Some? ==> e.post.found.value == e.post.to)
  }

  predicate AllAimed(log: seq<Event>) {
    log == [] || (AllAimed(log[..|log| - 1]) && Aimed(log[..|log| - 1], log[|log| - 1]))
  }

  lemma AppendAimed(log: seq<Event>, e: Event)
    ensures AllAimed(log + [e]) <==> AllAimed(log) && Aimed(log, e)
    ensures Shaken(log + [e]) == if EndsHandshake(e) then Some(e.post.to) else Shaken(log)
  {
    assert (log + [e])[..|log|] == log;
  }

  lemma {:induction false} AimedAt(log: seq<Event>, i: nat)
    requires AllAimed(log) && i < |log|
    ensures Aimed(log[..i], log[i])
  {
    hide Aimed;
    var n := |log| - 1;
    if i < n {
      AimedAt(log[..n], i);
      assert log[..n][..i] == log[..i];
    }
  }

  // ---------- An honest environment ----------

  /** An answer that is honest about execution: what was never sent or was not found is not carried out, and what is
      answered whole and successfully is. */
  predicate HonestAnswer(a: Answer) {
    && (NeverSent(a.wire) ==> !a.executed)
    && (a.wire.Received? && a.wire.status == 404 && a.wire.body.Some? ==> !a.executed)
    && (Delivers(a.wire) ==> a.executed)
  }

  predicate HonestScript(script: seq<Answer>) {
    forall a | a in script :: HonestAnswer(a)
  }

  predicate HonestWorld(w: World) {
    HonestScript(w.script) && forall e | e in w.log :: HonestPost(e.post)
  }

  lemma HonestNext(w: World)
    requires HonestScript(w.script)
    ensures HonestAnswer(w.Next()) && HonestScript(w.Advance().script)
  {
  }

  /** What keeps to the aim and to honesty. */
  ghost predicate Keeps(w: World, w': World) {
    (HonestWorld(w) ==> HonestWorld(w')) && (AllAimed(w.log) ==> AllAimed(w'.log))
  }

  /** The client may post with this purpose. */
  predicate Ready(c: Client, w: World, purpose: Purpose) {
    if purpose.Handshake? then w.found == Some(c.endpoint)
    else Shaken(w.log) == Some(c.endpoint) && (w.found.Some? ==> w.found.value == c.endpoint)
  }

  lemma HonestPosting(c: Client, w: World)
    requires HonestAnswer(w.Next())
    ensures HonestPost(PostOf(c, w))
  {
    hide NeverSent, Delivers;
  }

  /** One logged message. */
  lemma PostKeeps(c: Client, w: World, w': World, e: Event)
    requires e.post == PostOf(c, w) && Ready(c, w, e.purpose)
    requires w' == w.Advance().Record(e)
    ensures Keeps(w, w') && w'.found == w.found
    ensures Shaken(w'.log) == if EndsHandshake(e) then Some(c.endpoint) else Shaken(w.log)
  {
    hide AllAimed, Shaken, NeverSent, SessionGone, Delivers, EndsHandshake;
    AppendAimed(w.log, e);
    if HonestWorld(w) {
      HonestNext(w);
      HonestPosting(c, w);
    }
  }

  lemma NothingKeeps(w: World)
    ensures Keeps(w, w)
  {
  }

  lemma RequestKeeps(cfg: Config, c: Client, w: World, purpose: Purpose, rpc: string, params: Json)
    requires (purpose.Relay? || IsControl(rpc)) && Ready(c, w, purpose)
    ensures var s := Request(cfg, c, w, purpose, rpc, params);
            && Keeps(w, s.w) && s.w.found == w.found
            && Shaken(s.w.log) == if EndsHandshake(Posted(c, w, purpose, rpc, params, s.r)) then Some(c.endpoint)
                                  else Shaken(w.log)
  {
    hide Send, ReadEnvelope, Keeps, AllAimed, Shaken, Handshakes, Relays, Listed, WellTagged, Later, AddPage;
    var s := Request(cfg, c, w, purpose, rpc, params);
    var c0 := c.(nextId := c.nextId + 1);
    if cfg.urlValid(c.endpoint.baseUrl) {
      SendMeaning(cfg, c0, w, true);
      PostKeeps(c, w, s.w, Posted(c, w, purpose, rpc, params, s.r));
    } else {
      NothingKeeps(w);
    }
  }

  lemma NotificationKeeps(cfg: Config, c: Client, w: World, purpose: Purpose, rpc: string, params: Json)
    requires (purpose.Relay? || IsControl(rpc)) && Ready(c, w, purpose) && (purpose.Relay? || rpc != "tools/list")
    ensures var s := Notification(cfg, c, w, purpose, rpc, params);
            Keeps(w, s.w) && s.w.found == w.found && Shaken(s.w.log) == Shaken(w.log)
  {
    hide Send, Keeps, AllAimed, Shaken, Handshakes, Relays, Listed, WellTagged, Later, AddPage;
    var s := Notification(cfg, c, w, purpose, rpc, params);
    if cfg.urlValid(c.endpoint.baseUrl) {
      SendMeaning(cfg, c, w, false);
      PostKeeps(c, w, s.w, Posted(c, w, purpose, rpc, params, Acknowledged(s.r)));
    } else {
      NothingKeeps(w);
    }
  }

  lemma KeepsOn(w: World, w': World, w'': World)
    requires Keeps(w, w') && Keeps(w', w'')
    ensures Keeps(w, w'')
  {
  }

  lemma OtherMethods()
    ensures "initialize" != "tools/list" && "notifications/initialized" != "tools/list"
  {
    assert "initialize"[0] != "tools/list"[0] && "notifications/initialized"[0] != "tools/list"[0];
  }

  lemma InitializeKeeps(cfg: Config, c: Client, w: World, params: Json)
    requires w.found == Some(c.endpoint)
    ensures var s := InitializeWith(cfg, c, w, params);
            Keeps(w, s.w) && s.w.found == w.found && Shaken(s.w.log) == Shaken(w.log)
  {
    hide Request, Notification, Keeps, Shaken, Handshakes, Relays, Listed, WellTagged, Later, AddPage, PostOf;
    NothingKeeps(w);
    OtherMethods();
    var c0 := c.(protocolVersion := params.GetString("protocolVersion").GetOr(c.protocolVersion));
    RequestKeeps(cfg, c0, w, Handshake, "initialize", params);
    var answer := Request(cfg, c0, w, Handshake, "initialize", params);
    if answer.r.Ok? {
      var agreed := answer.r.value.GetString("protocolVersion");
      var c1 := answer.c.(protocolVersion := agreed.GetOr(answer.c.protocolVersion));
      NotificationKeeps(cfg, c1, answer.w, Handshake, "notifications/initialized", JObject(map[]));
      KeepsOn(w, answer.w, Notification(cfg, c1, answer.w, Handshake, "notifications/initialized", JObject(map[])).w);
    }
  }

  lemma ListPageKeeps(
    cfg: Config, c: Client, w: World, purpose: Purpose, cursor: Option<string>, tools: seq<Json>)
    requires !purpose.Relay? && Ready(c, w, purpose)
    requires tools == if cursor.Some? then Listed(w.log, w.loaded).pages else []
    ensures var s := ListPage(cfg, c, w, purpose, cursor, tools);
            && Keeps(w, s.w) && s.w.found == w.found
            && Shaken(s.w.log)
                 == (if purpose.Handshake? && s.r.Ok? && s.r.value.next.None? then Some(c.endpoint) else Shaken(w.log))
  {
    hide Request, Keeps, Shaken, Ready, Handshakes, Relays, Listed, WellTagged, Later, AddPage, PostOf, PageTools;
    hide NextCursor, CursorParams, Quiet;
    RequestKeeps(cfg, c, w, purpose, "tools/list", CursorParams(cursor));
  }

  /** A page leaves what was found at start-up alone. */
  lemma SamePageWorld(cfg: Config, c: Client, w: World, purpose: Purpose, cursor: Option<string>, tools: seq<Json>)
    requires !purpose.Relay?
    requires tools == if cursor.Some? then Listed(w.log, w.loaded).pages else []
    ensures ListPage(cfg, c, w, purpose, cursor, tools).w.loaded == w.loaded
  {
    hide ListPage, Handshakes, Relays, Listed, WellTagged;
  }

  lemma {:induction false} ListPagesKeeps(
    cfg: Config, c: Client, w: World, purpose: Purpose, cursor: Option<string>, tools: seq<Json>)
    requires !purpose.Relay? && Ready(c, w, purpose)
    requires tools == if cursor.Some? then Listed(w.log, w.loaded).pages else []
    ensures var s := ListPages(cfg, c, w, purpose, cursor, tools);
            && Keeps(w, s.w) && s.w.found == w.found
            && Shaken(s.w.log) == (if purpose.Handshake? && s.r.Ok? then Some(c.endpoint) else Shaken(w.log))
    decreases |w.script|
  {
    hide ListPage, Keeps, Shaken, Handshakes, Relays, Listed, WellTagged, Catalogue, Quiet;
    ListPageKeeps(cfg, c, w, purpose, cursor, tools);
    var page := ListPage(cfg, c, w, purpose, cursor, tools);
    if page.r.Ok? && page.r.value.next.Some? {
      SamePageWorld(cfg, c, w, purpose, cursor, tools);
      ListPagesKeeps(cfg, page.c, page.w, purpose, page.r.value.next, page.r.value.tools);
      KeepsOn(w, page.w, ListPages(cfg, page.c, page.w, purpose, page.r.value.next, page.r.value.tools).w);
    }
  }

  lemma ListToolsKeeps(cfg: Config, c: Client, w: World, purpose: Purpose)
    requires !purpose.Relay? && c.initialized && Ready(c, w, purpose)
    ensures var s := ListToolsValue(cfg, c, w, purpose);
            && Keeps(w, s.w) && s.w.found == w.found
            && Shaken(s.w.log) == (if purpose.Handshake? && s.r.Ok? then Some(c.endpoint) else Shaken(w.log))
  {
    hide ListPages, Keeps, Shaken, Ready, Handshakes, Relays, Listed, WellTagged, Quiet;
    ListPagesKeeps(cfg, c, w, purpose, None, []);
  }

  lemma RelayKeeps(cfg: Config, c: Client, w: World, rpc: string, params: Json)
    requires c.initialized && Ready(c, w, Relay)
    ensures var s := RequestMethod(cfg, c, w, rpc, params);
            Keeps(w, s.w) && s.w.found == w.found && Shaken(s.w.log) == Shaken(w.log)
    ensures var s := NotificationMethod(cfg, c, w, rpc, params);
            Keeps(w, s.w) && s.w.found == w.found && Shaken(s.w.log) == Shaken(w.log)
  {
    hide Request, Notification, Keeps, Shaken, Ready, Handshakes, Relays, Listed, WellTagged, Relayed, Later, PostOf;
    RequestKeeps(cfg, c, w, Relay, rpc, params);
    NotificationKeeps(cfg, c, w, Relay, rpc, params);
  }

  // ---------- The proxy ----------

  /** The held connection is the one of the last completed handshake. */
  predicate Anchored(p: Proxy, w: World) {
    p.client.Some? ==>
      && p.client.value.initialized && Shaken(w.log) == Some(p.client.value.endpoint)
      && p.activeEndpoint == Some(p.client.value.endpoint)
  }

  /** The held connection is to the endpoint just discovered, if there was one. */
  predicate Current(p: Proxy, w: World) {
    p.client.Some? ==> w.found.None? || w.found.value == p.client.value.endpoint
  }

  lemma CurrentIsReady(p: Proxy, w: World, purpose: Purpose)
    requires p.client.Some? && Anchored(p, w) && Current(p, w) && !purpose.Handshake?
    ensures Ready(p.client.value, w, purpose) && p.client.value.initialized
  {
    hide Shaken;
  }

  /** Anything that changes neither the log nor what was found. */
  lemma QuietKeeps(p: Proxy, w: World, p': Proxy, w': World)
    requires w'.log == w.log && w'.found == w.found && (HonestScript(w.script) ==> HonestScript(w'.script))
    requires p'.client == p.client && p'.activeEndpoint == p.activeEndpoint
    ensures Keeps(w, w') && (Anchored(p, w) ==> Anchored(p', w')) && (Current(p, w) ==> Current(p', w'))
  {
    hide Shaken, AllAimed, HonestScript;
  }

  lemma InstallKeeps(p: Proxy, w: World, tools: Json)
    requires PageTools(tools).Some? && Anchored(p, w)
    ensures var (p', w') := InstallTools(p, w, tools);
            Keeps(w, w') && Anchored(p', w') && (Current(p, w) ==> Current(p', w'))
  {
    hide Anchored, Current, HonestScript, Keeps, PageTools, Handshakes, Relays, Listed, WellTagged;
    if HonestScript(w.script) { HonestNext(w); }
    var (p', w') := InstallTools(p, w, tools);
    QuietKeeps(p, w, p', w');
  }

  /** The pieces of a connection that was made. */
  lemma ConnectUnfolds(cfg: Config, p: Proxy, w: World, endpoint: Endpoint)
    ensures var s := ConnectEndpoint(cfg, p, w, endpoint);
            if p.initializeParams.None? then s.w == w && s.p == p && s.r.Err?
            else
              var shaken := InitializeWith(cfg, NewClient(endpoint), w, p.initializeParams.value);
              if shaken.r.Err? then s.w == shaken.w && s.p == p && s.r.Err?
              else
                var listed := ListToolsValue(cfg, shaken.c, shaken.w, Handshake);
                if listed.r.Err? then s.w == listed.w && s.p == p && s.r.Err?
                else
                  && PageTools(listed.r.value).Some? && s.r.Ok?
                  && (s.p, s.w) == InstallConnection(p, listed.w, listed.c, listed.r.value)
  {
    hide InitializeWith, ListToolsValue, InstallConnection, Handshakes, Relays, Listed, WellTagged;
    hide Invariant, Evolves, Reports, Later, Quiet, Preliminary, PageTools;
  }

  lemma ConnectKeeps(cfg: Config, p: Proxy, w: World, endpoint: Endpoint)
    requires w.found == Some(endpoint) && Anchored(p, w)
    ensures var s := ConnectEndpoint(cfg, p, w, endpoint);
            Keeps(w, s.w) && Anchored(s.p, s.w) && (s.r.Ok? ==> Current(s.p, s.w))
  {
    hide ConnectEndpoint, InitializeWith, ListToolsValue, InstallTools, Keeps, Shaken, PageTools;
    hide Handshakes, Relays, Listed, WellTagged, Invariant, Evolves, Reports, Later, Quiet, Preliminary;
    NothingKeeps(w);
    ConnectUnfolds(cfg, p, w, endpoint);
    if p.initializeParams.Some? {
      InitializeKeeps(cfg, NewClient(endpoint), w, p.initializeParams.value);
      var shaken := InitializeWith(cfg, NewClient(endpoint), w, p.initializeParams.value);
      if shaken.r.Ok? {
        ListToolsKeeps(cfg, shaken.c, shaken.w, Handshake);
        var listed := ListToolsValue(cfg, shaken.c, shaken.w, Handshake);
        KeepsOn(w, shaken.w, listed.w);
        if listed.r.Ok? {
          var q := p.(
            generation := p.generation + 1, client := Some(listed.c), activeEndpoint := Some(listed.c.endpoint));
          InstallKeeps(q, listed.w, listed.r.value);
          KeepsOn(w, listed.w, InstallTools(q, listed.w, listed.r.value).1);
        }
      }
    }
  }

  lemma DiscoverKeeps(p: Proxy, w: World)
    requires Anchored(p, w)
    ensures Keeps(w, w.Discover()) && Anchored(p, w.Discover())
  {
    hide Shaken, AllAimed, HonestAnswer;
    if HonestScript(w.script) { HonestNext(w); }
  }

  lemma EnsureKeeps(cfg: Config, p: Proxy, w: World)
    requires Anchored(p, w)
    ensures var s := EnsureConnected(cfg, p, w);
            Keeps(w, s.w) && Anchored(s.p, s.w) && (s.r.Ok? ==> s.p.client.Some? && Current(s.p, s.w))
  {
    hide ConnectEndpoint, Keeps, Shaken, Handshakes, Relays, Listed, WellTagged, Invariant, Evolves, Reports, Later;
    DiscoverKeeps(p, w);
    var endpoint := w.Next().endpoint;
    if endpoint.Some? && !(p.activeEndpoint == endpoint && p.client.Some?) {
      ConnectKeeps(cfg, p, w.Discover(), endpoint.value);
      KeepsOn(w, w.Discover(), ConnectEndpoint(cfg, p, w.Discover(), endpoint.value).w);
    }
  }

  lemma SleepKeeps(p: Proxy, w: World)
    requires Anchored(p, w)
    ensures Keeps(w, w.Sleep(100)) && Anchored(p, w.Sleep(100))
  {
    hide Shaken, AllAimed, HonestScript;
  }

  lemma {:induction false} ConnectForInitializeKeeps(cfg: Config, p: Proxy, w: World, deadline: nat)
    requires Anchored(p, w)
    ensures var s := ConnectForInitialize(cfg, p, w, deadline); Keeps(w, s.w) && Anchored(s.p, s.w)
    decreases if w.now < deadline then deadline - w.now else 0
  {
    hide EnsureConnected, Keeps, Anchored, Handshakes, Relays, Listed, WellTagged, Invariant, Reports;
    EnsureKeeps(cfg, p, w);
    var s := EnsureConnected(cfg, p, w);
    if s.r.Err? && s.p.cachedTools.None? && s.w.now < deadline {
      SleepKeeps(s.p, s.w);
      ConnectForInitializeKeeps(cfg, s.p, s.w.Sleep(100), deadline);
      KeepsOn(w, s.w, s.w.Sleep(100));
      KeepsOn(w, s.w.Sleep(100), ConnectForInitialize(cfg, s.p, s.w.Sleep(100), deadline).w);
    }
  }

  lemma AdoptKeeps(p: Proxy, c: Client, w: World, w': World)
    requires p.client.Some? && Anchored(p, w) && Shaken(w'.log) == Shaken(w.log) && w'.found == w.found
    requires c.endpoint == p.client.value.endpoint && c.initialized
    ensures Anchored(Adopt(p, c), w') && Anchored(ResetDownstream(Adopt(p, c)), w')
  {
    hide Shaken;
  }

  lemma ListingKeeps(cfg: Config, p: Proxy, w: World)
    requires p.client.Some? && Anchored(p, w) && Current(p, w)
    ensures var s := ListToolsValue(cfg, p.client.value, w, Refresh);
            && Keeps(w, s.w)
            && Anchored(Adopt(p, s.c), s.w) && Anchored(ResetDownstream(Adopt(p, s.c)), s.w)
  {
    hide ListToolsValue, Keeps, Shaken, Handshakes, Relays, Listed, WellTagged, Quiet, PageTools;
    CurrentIsReady(p, w, Refresh);
    ListToolsKeeps(cfg, p.client.value, w, Refresh);
    AdoptKeeps(p, ListToolsValue(cfg, p.client.value, w, Refresh).c, w,
        ListToolsValue(cfg, p.client.value, w, Refresh).w);
  }

  lemma RefreshKeeps(cfg: Config, p: Proxy, w: World)
    requires Anchored(p, w)
    ensures var s := RefreshToolsWithReconnect(cfg, p, w); Keeps(w, s.w) && Anchored(s.p, s.w)
  {
    hide EnsureConnected, ListToolsValue, InstallTools, Keeps, Shaken, Anchored, Current, Ready, Adopt, ResetDownstream;
    hide Handshakes, Relays, Listed, WellTagged, Invariant, Evolves, Reports, Later, Quiet, PageTools;
    EnsureKeeps(cfg, p, w);
    var ready := EnsureConnected(cfg, p, w);
    if ready.r.Ok? {
      var first := ListToolsValue(cfg, ready.p.client.value, ready.w, Refresh);
      ListingKeeps(cfg, ready.p, ready.w);
      KeepsOn(w, ready.w, first.w);
      if first.r.Ok? {
        InstallKeeps(Adopt(ready.p, first.c), first.w, first.r.value);
        KeepsOn(w, first.w, InstallTools(Adopt(ready.p, first.c), first.w, first.r.value).1);
      } else if first.r.error.RetryableBeforeExecution() {
        var p1 := ResetDownstream(Adopt(ready.p, first.c));
        EnsureKeeps(cfg, p1, first.w);
        var again := EnsureConnected(cfg, p1, first.w);
        KeepsOn(w, first.w, again.w);
        if again.r.Ok? {
          var second := ListToolsValue(cfg, again.p.client.value, again.w, Refresh);
          ListingKeeps(cfg, again.p, again.w);
          KeepsOn(w, again.w, second.w);
          if second.r.Ok? {
            InstallKeeps(Adopt(again.p, second.c), second.w, second.r.value);
            KeepsOn(w, second.w, InstallTools(Adopt(again.p, second.c), second.w, second.r.value).1);
          }
        }
      }
    }
  }

  lemma RelayingKeeps(cfg: Config, p: Proxy, w: World, rpc: string, params: Json)
    requires p.client.Some? && Anchored(p, w) && Current(p, w)
    ensures var s := RequestMethod(cfg, p.client.value, w, rpc, params);
            && Keeps(w, s.w)
            && Anchored(Adopt(p, s.c), s.w) && Anchored(ResetDownstream(Adopt(p, s.c)), s.w)
    ensures var s := NotificationMethod(cfg, p.client.value, w, rpc, params);
            && Keeps(w, s.w)
            && Anchored(Adopt(p, s.c), s.w) && Anchored(ResetDownstream(Adopt(p, s.c)), s.w)
  {
    hide RequestMethod, NotificationMethod, Keeps, Shaken, Handshakes, Relays, Listed, WellTagged, Relayed;
    CurrentIsReady(p, w, Relay);
    RelayKeeps(cfg, p.client.value, w, rpc, params);
    var s := RequestMethod(cfg, p.client.value, w, rpc, params);
    AdoptKeeps(p, s.c, w, s.w);
    var n := NotificationMethod(cfg, p.client.value, w, rpc, params);
    AdoptKeeps(p, n.c, w, n.w);
  }

  lemma RetryKeeps(cfg: Config, p: Proxy, w: World, rpc: string, params: Json, se: bool)
    requires Anchored(p, w)
    ensures var s := RetryRequest(cfg, p, w, rpc, params, se); Keeps(w, s.w) && Anchored(s.p, s.w)
  {
    hide EnsureConnected, RequestMethod, Keeps, Shaken, Anchored, Current, Adopt, ResetDownstream;
    hide Handshakes, Relays, Listed, WellTagged, Invariant, Evolves, Reports, Later, Relayed;
    EnsureKeeps(cfg, p, w);
    var again := EnsureConnected(cfg, p, w);
    if again.r.Ok? {
      RelayingKeeps(cfg, again.p, again.w, rpc, params);
      KeepsOn(w, again.w, RequestMethod(cfg, again.p.client.value, again.w, rpc, params).w);
    }
  }

  lemma ForwardKeeps(cfg: Config, p: Proxy, w: World, rpc: string, params: Json, se: bool)
    requires Anchored(p, w)
    ensures var s := ForwardRequest(cfg, p, w, rpc, params, se); Keeps(w, s.w) && Anchored(s.p, s.w)
  {
    hide EnsureConnected, RequestMethod, RetryRequest, Keeps, Shaken, Anchored, Current, Adopt, ResetDownstream;
    hide Handshakes, Relays, Listed, WellTagged, Invariant, Evolves, Reports, Later, Relayed;
    EnsureKeeps(cfg, p, w);
    var ready := EnsureConnected(cfg, p, w);
    if ready.r.Ok? {
      RelayingKeeps(cfg, ready.p, ready.w, rpc, params);
      var first := RequestMethod(cfg, ready.p.client.value, ready.w, rpc, params);
      KeepsOn(w, ready.w, first.w);
      if first.r.Err? && first.r.error.RetryableBeforeExecution() {
        var p1 := ResetDownstream(Adopt(ready.p, first.c));
        RetryKeeps(cfg, p1, first.w, rpc, params, se);
        KeepsOn(w, first.w, RetryRequest(cfg, p1, first.w, rpc, params, se).w);
      }
    }
  }

  lemma ForwardNotificationKeeps(cfg: Config, p: Proxy, w: World, rpc: string, params: Json)
    requires Anchored(p, w)
    ensures var s := ForwardNotification(cfg, p, w, rpc, params); Keeps(w, s.w) && Anchored(s.p, s.w)
  {
    hide EnsureConnected, NotificationMethod, Keeps, Shaken, Anchored, Current, Adopt, ResetDownstream;
    hide Handshakes, Relays, Listed, WellTagged, Invariant, Evolves, Reports, Later, Relayed;
    EnsureKeeps(cfg, p, w);
    var ready := EnsureConnected(cfg, p, w);
    if ready.r.Ok? {
      RelayingKeeps(cfg, ready.p, ready.w, rpc, params);
      var first := NotificationMethod(cfg, ready.p.client.value, ready.w, rpc, params);
      KeepsOn(w, ready.w, first.w);
      if first.r.Err? && first.r.error.RetryableBeforeExecution() {
        var p1 := ResetDownstream(Adopt(ready.p, first.c));
        EnsureKeeps(cfg, p1, first.w);
        var again := EnsureConnected(cfg, p1, first.w);
        KeepsOn(w, first.w, again.w);
        if again.r.Ok? {
          RelayingKeeps(cfg, again.p, again.w, rpc, params);
          KeepsOn(w, again.w, NotificationMethod(cfg, again.p.client.value, again.w, rpc, params).w);
        }
      }
    }
  }

  // ---------- Lines and runs ----------

  lemma InitializeRequestKeeps(cfg: Config, p: Proxy, w: World, id: Json, params: Json)
    requires Anchored(p, w)
    ensures var a := HandleInitialize(cfg, p, w, id, params); Keeps(w, a.w) && Anchored(a.p, a.w)
  {
    hide ConnectForInitialize, Keeps, Shaken, Handshakes, Relays, Listed, WellTagged, Invariant;
    hide Evolves, Reports, Later;
    NothingKeeps(w);
    if params.JObject? && params.GetString("protocolVersion").Some? {
      ConnectForInitializeKeeps(
        cfg, Reinitialized(p, params, params.GetString("protocolVersion").value), w, w.now + cfg.startupWait);
    }
  }

  lemma RespondKeeps(cfg: Config, p: Proxy, w: World, id: Json, rpc: string, params: Json)
    requires Anchored(p, w)
    ensures var a := Respond(cfg, p, w, id, rpc, params); Keeps(w, a.w) && Anchored(a.p, a.w)
  {
    hide HandleInitialize, RefreshToolsWithReconnect, ForwardRequest, Keeps, Anchored;
    hide Handshakes, Relays, Listed, WellTagged, Invariant, Evolves, Reports, Later;
    NothingKeeps(w);
    InitializeRequestKeeps(cfg, p, w, id, params);
    RefreshKeeps(cfg, p, w);
    ForwardKeeps(cfg, p, w, rpc, params, rpc == "tools/call");
  }

  lemma NoticeKeeps(cfg: Config, p: Proxy, w: World, rpc: string, params: Json)
    requires Anchored(p, w)
    ensures var s := HandleNotification(cfg, p, w, rpc, params); Keeps(w, s.1) && Anchored(s.0, s.1)
  {
    hide ForwardNotification, Keeps, Shaken, Handshakes, Relays, Listed, WellTagged, Invariant, Evolves, Reports, Later;
    NothingKeeps(w);
    ForwardNotificationKeeps(cfg, p, w, rpc, params);
  }

  lemma LineKeeps(cfg: Config, p: Proxy, w: World, line: string)
    requires Anchored(p, w)
    ensures var t := HandleLine(cfg, p, w, line); Keeps(w, t.w) && Anchored(t.p, t.w)
  {
    hide Respond, HandleNotification, Keeps, Shaken, Handshakes, Relays, Listed, WellTagged, Invariant, Reports, Later;
    hide Trim;
    NothingKeeps(w);
    if cfg.parse(line).Some? && cfg.parse(line).value.JObject? {
      var message := cfg.parse(line).value;
      var id, params := message.Get("id"), message.Get("params").GetOr(JObject(map[]));
      if message.GetString("method").Some? {
        var rpc := message.GetString("method").value;
        if id.Some? { RespondKeeps(cfg, p, w, id.value, rpc, params); }
        NoticeKeeps(cfg, p, w, rpc, params);
      }
    }
  }

  lemma {:induction false} RunKeeps(cfg: Config, script: seq<Answer>, disk: Option<CacheFile>, lines: seq<string>)
    ensures var run := RunStream(cfg, script, disk, lines);
            && Anchored(run.p, run.w) && AllAimed(run.w.log) && (HonestScript(script) ==> HonestWorld(run.w))
  {
    hide HandleLine, Handshakes, Relays, Listed, WellTagged, HonestAnswer;
    if lines != [] {
      var n := |lines| - 1;
      var before := RunStream(cfg, script, disk, lines[..n]);
      RunKeeps(cfg, script, disk, lines[..n]);
      LineKeeps(cfg, before.p, before.w, lines[n]);
    }
  }

  /** Over every run, every handshake goes to the endpoint that was just discovered, and every other message, relayed or
      not, to that of the last completed handshake, which is the endpoint just discovered unless none was. */
  lemma EveryMessageIsAimed(
    cfg: Config, script: seq<Answer>, disk: Option<CacheFile>, lines: seq<string>, i: nat)
    requires i < |RunStream(cfg, script, disk, lines).w.log|
    ensures var log := RunStream(cfg, script, disk, lines).w.log;
            var post := log[i].post;
            && (post.found.Some? ==> post.to == post.found.value)
            && (log[i].purpose.Handshake? ==> post.found.Some?)
            && (!log[i].purpose.Handshake? ==> Shaken(log[..i]) == Some(post.to))
  {
    hide RunStream, Shaken;
    RunKeeps(cfg, script, disk, lines);
    AimedAt(RunStream(cfg, script, disk, lines).w.log, i);
  }

  /** If the answers are honest, so is what the run sees of them: the assumption of AtMostOnce and ReplyMeaning, made of
      the environment before the run. */
  lemma HonestScriptSuffices(cfg: Config, script: seq<Answer>, disk: Option<CacheFile>, lines: seq<string>)
    requires HonestScript(script)
    ensures Honest(Relays(RunStream(cfg, script, disk, lines).w.log))
  {
    hide RunStream, Relays, HonestPost;
    RunKeeps(cfg, script, disk, lines);
    RelaysIn(RunStream(cfg, script, disk, lines).w.log);
  }

  lemma RelayedHasMessage(cfg: Config, line: string)
    ensures IsRelayed(cfg, line) ==> cfg.parse(line).Some?
  {
    hide Trim, Local;
  }

  /** At most once, assuming honest answers: whatever is lost on the way, every upstream message is carried out at most
      once, and the reply to a relayed request says truly what became of it. */
  lemma AtMostOnceIfHonest(
    cfg: Config, script: seq<Answer>, disk: Option<CacheFile>, lines: seq<string>, k: nat)
    requires HonestScript(script) && k < |lines|
    ensures var run := RunStream(cfg, script, disk, lines);
            var es := OfMessage(Relays(run.w.log), k);
            && Executions(es) <= 1
            && (IsRelayed(cfg, lines[k]) && cfg.parse(lines[k]).value.Get("id").Some? ==>
                  run.groups[k] != [] && Truthful(run.groups[k][|run.groups[k]| - 1], es))
  {
    hide RunStream, OfMessage, Relays, Executions, Honest, Truthful, IsRelayed, HonestScript;
    HonestScriptSuffices(cfg, script, disk, lines);
    AtMostOnce(cfg, script, disk, lines, k);
    RelayedHasMessage(cfg, lines[k]);
    if IsRelayed(cfg, lines[k]) && cfg.parse(lines[k]).value.Get("id").Some? {
      ReplyMeaning(cfg, script, disk, lines, k);
    }
  }
}
