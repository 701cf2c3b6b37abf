/** What holds of the proxy over every run: any input lines, any schedule of answers, any cache file. */
module ProxyTheorems {
  import opened Common
  import opened Text
  import opened McpModel
  import opened ProxyModel

  // ---------- Invariant ----------

  /** Every reached state satisfies the invariant, and the catalogue the run started from is remembered. */
  lemma {:induction false} RunInvariant(cfg: Config, script: seq<Answer>, disk: Option<CacheFile>, lines: seq<string>)
    ensures var run := RunStream(cfg, script, disk, lines);
            && Invariant(run.p, run.w)
            && WellTagged(run.w.log)
            && run.w.loaded == LoadToolsCache(disk)
  {
    if lines != [] {
      RunInvariant(cfg, script, disk, lines[..|lines| - 1]);
    }
  }

  /** A proxy started on the cache file left by a run holds the same catalogue, unless the last write failed. */
  lemma RestartRecoversCatalogue(cfg: Config, script: seq<Answer>, disk: Option<CacheFile>, lines: seq<string>)
    ensures var run := RunStream(cfg, script, disk, lines);
            run.w.diskCurrent ==> WithResolver(run.w.disk).cachedTools == run.p.cachedTools
  {
    RunInvariant(cfg, script, disk, lines);
  }

  lemma LineKeepsCatalogue(cfg: Config, p: Proxy, w: World, line: string)
    requires p.cachedTools.Some?
    ensures HandleLine(cfg, p, w, line).p.cachedTools.Some?
  {
    hide RefreshToolsWithReconnect, ForwardRequest, ForwardNotification, ConnectForInitialize;
    hide Handshakes, Relays, Listed, WellTagged, Invariant, Later, Trim;
  }

  /** Once a catalogue is held it is never lost, whatever the later input and answers. */
  lemma {:induction false} CatalogueNeverLost(
    cfg: Config, script: seq<Answer>, disk: Option<CacheFile>, lines: seq<string>, k: nat)
    requires k <= |lines|
    requires RunStream(cfg, script, disk, lines[..k]).p.cachedTools.Some?
    ensures RunStream(cfg, script, disk, lines).p.cachedTools.Some?
  {
    if k == |lines| {
      assert lines[..k] == lines;
    } else {
      var earlier := lines[..|lines| - 1];
      assert earlier[..k] == lines[..k];
      CatalogueNeverLost(cfg, script, disk, earlier, k);
      var before := RunStream(cfg, script, disk, earlier);
      RunInvariant(cfg, script, disk, earlier);
      LineKeepsCatalogue(cfg, before.p, before.w, lines[|lines| - 1]);
    }
  }

  // ---------- At most once ----------

  predicate Retryable(e: Event) {
    e.outcome.Err? && e.outcome.error.RetryableBeforeExecution()
  }

  /** The sends of one relayed message: at most two, all of them that message, the second only after a failure
      known to precede execution. */
  ghost predicate SentFor(es: seq<Event>, origin: nat, rpc: string, params: Json) {
    && |es| <= 2
    && (forall e | e in es :: e.origin == origin && e.purpose.Relay? && e.rpc == rpc && e.params == params)
    && (|es| == 2 ==> Retryable(es[0]))
  }

  predicate FailedWith(es: seq<Event>, kind: ErrorKind) {
    forall e | e in es :: Retryable(e) || e.outcome == Err(kind)
  }

  /** What the result of a relayed request tells about its sends. */
  ghost predicate ResultTells(es: seq<Event>, r: Result<Json, Failure>) {
    match r
    case Ok(value) => es != [] && es[|es| - 1].outcome == Ok(value)
    case Err(Uncertain(kind, _)) => kind.ExecutionUncertain() && FailedWith(es, kind)
    case Err(CallFailed(kind)) => !kind.ExecutionUncertain() && FailedWith(es, kind)
    case Err(_) => forall e | e in es :: Retryable(e)
  }

  /** The sends of one attempt: none, or the message with that outcome. */
  ghost predicate SentOnce(es: seq<Event>, w: World, rpc: string, params: Json, outcome: Result<Json, ErrorKind>) {
    && |es| <= 1 && (outcome.Ok? ==> es != [])
    && (es != [] ==> es[0] == Sent(w.origin, Relay, rpc, params, outcome, es[0].post))
  }

  /** Reads the sends of one attempt off the two logs. */
  lemma Attempt(
    w: World, w': World, rpc: string, params: Json, outcome: Result<Json, ErrorKind>) returns (es: seq<Event>)
    requires Relayed(w, w', rpc, params, outcome)
    ensures Relays(w'.log) == Relays(w.log) + es && w'.origin == w.origin
    ensures SentOnce(es, w, rpc, params, outcome)
  {
    es := Relays(w'.log)[|Relays(w.log)|..];
  }

  lemma OneAttempt(es: seq<Event>, w: World, rpc: string, params: Json, outcome: Result<Json, ErrorKind>, se: bool)
    requires SentOnce(es, w, rpc, params, outcome)
    ensures SentFor(es, w.origin, rpc, params) && |es| <= 1
    ensures ResultTells(es, if outcome.Ok? then Ok(outcome.value) else Err(CallFailure(outcome.error, se)))
    ensures outcome.Err? && outcome.error.RetryableBeforeExecution() ==> forall e | e in es :: Retryable(e)
  {
  }

  /** A first attempt that failed before execution takes nothing from what the second one tells. */
  lemma TwoAttempts(es: seq<Event>, more: seq<Event>, origin: nat, rpc: string, params: Json, r: Result<Json, Failure>)
    requires SentFor(es, origin, rpc, params) && |es| <= 1 && forall e | e in es :: Retryable(e)
    requires SentFor(more, origin, rpc, params) && |more| <= 1
    ensures SentFor(es + more, origin, rpc, params)
    ensures ResultTells(more, r) ==> ResultTells(es + more, r)
  {
  }

  lemma RetryRequestSends(cfg: Config, p: Proxy, w: World, rpc: string, params: Json, sideEffecting: bool)
    returns (es: seq<Event>)
    ensures var s := RetryRequest(cfg, p, w, rpc, params, sideEffecting);
            && Relays(s.w.log) == Relays(w.log) + es && |es| <= 1
            && SentFor(es, w.origin, rpc, params) && ResultTells(es, s.r)
  {
    hide EnsureConnected, RequestMethod, Handshakes, Relays, Listed, WellTagged, Relayed, CallFailure, Reports;
    var ready := EnsureConnected(cfg, p, w);
    es := [];
    if ready.r.Ok? {
      var call := RequestMethod(cfg, ready.p.client.value, ready.w, rpc, params);
      es := Attempt(ready.w, call.w, rpc, params, call.r);
      OneAttempt(es, ready.w, rpc, params, call.r, sideEffecting);
    }
  }

  lemma NothingSent(origin: nat, rpc: string, params: Json)
    ensures SentFor([], origin, rpc, params)
    ensures forall why: Failure | why.Disconnected() :: ResultTells([], Err(why))
  {
  }

  lemma ForwardRequestSends(cfg: Config, p: Proxy, w: World, rpc: string, params: Json, sideEffecting: bool)
    returns (es: seq<Event>)
    ensures var s := ForwardRequest(cfg, p, w, rpc, params, sideEffecting);
            && Relays(s.w.log) == Relays(w.log) + es
            && SentFor(es, w.origin, rpc, params) && ResultTells(es, s.r)
  {
    hide EnsureConnected, RequestMethod, RetryRequest, Handshakes, Relays, Listed, WellTagged, Relayed, CallFailure;
    hide Reports, ResultTells, SentFor;
    NothingSent(w.origin, rpc, params);
    var ready := EnsureConnected(cfg, p, w);
    es := [];
    if ready.r.Ok? {
      var first := RequestMethod(cfg, ready.p.client.value, ready.w, rpc, params);
      es := Attempt(ready.w, first.w, rpc, params, first.r);
      OneAttempt(es, ready.w, rpc, params, first.r, sideEffecting);
      if first.r.Err? && first.r.error.RetryableBeforeExecution() {
        var p1 := ResetDownstream(Adopt(ready.p, first.c));
        var more := RetryRequestSends(cfg, p1, first.w, rpc, params, sideEffecting);
        TwoAttempts(es, more, w.origin, rpc, params, RetryRequest(cfg, p1, first.w, rpc, params, sideEffecting).r);
        es := es + more;
      }
    }
  }

  /** What the result of a relayed notification tells about its sends: accepted at the last one, failed at every one in
      the way reported, or never sent but for failures that precede execution. */
  ghost predicate NoticeTells(es: seq<Event>, r: Result<(), Failure>) {
    match r
    case Ok(_) => es != [] && es[|es| - 1].outcome.Ok?
    case Err(CallFailed(kind)) => FailedWith(es, kind)
    case Err(_) => forall e | e in es :: Retryable(e)
  }

  lemma OneNotice(es: seq<Event>, w: World, rpc: string, params: Json, r: Result<(), ErrorKind>)
    requires SentOnce(es, w, rpc, params, Acknowledged(r))
    ensures NoticeTells(es, if r.Ok? then Ok(()) else Err(CallFailed(r.error)))
  {
  }

  /** An earlier send that failed before execution changes nothing of what the last one tells. */
  lemma TwoNotices(es: seq<Event>, more: seq<Event>, r: Result<(), Failure>)
    requires (forall e | e in es :: Retryable(e)) && NoticeTells(more, r)
    ensures NoticeTells(es + more, r)
  {
  }

  /** The two attempts of a notification, in order. */
  lemma NotificationUnfolds(cfg: Config, p: Proxy, w: World, rpc: string, params: Json)
    ensures var s, ready := ForwardNotification(cfg, p, w, rpc, params), EnsureConnected(cfg, p, w);
            if ready.r.Err? then s == ready
            else
              var first := NotificationMethod(cfg, ready.p.client.value, ready.w, rpc, params);
              var again := EnsureConnected(cfg, ResetDownstream(Adopt(ready.p, first.c)), first.w);
              if first.r.Ok? || !first.r.error.RetryableBeforeExecution() then
                s.w == first.w && s.r == (if first.r.Ok? then Ok(()) else Err(CallFailed(first.r.error)))
              else if again.r.Err? then s == again
              else
                var second := NotificationMethod(cfg, again.p.client.value, again.w, rpc, params);
                s.w == second.w && s.r == (if second.r.Ok? then Ok(()) else Err(CallFailed(second.r.error)))
  {
    hide EnsureConnected, NotificationMethod, Handshakes, Relays, Listed, WellTagged, Relayed, Reports, Invariant,
        Evolves;
  }

  lemma NoNotice(why: Failure)
    requires why.Disconnected()
    ensures NoticeTells([], Err(why))
  {
  }

  lemma RetryableNotice(es: seq<Event>, why: Failure)
    requires why.Disconnected() && forall e | e in es :: Retryable(e)
    ensures NoticeTells(es, Err(why))
  {
  }

  lemma ForwardNotificationSends(cfg: Config, p: Proxy, w: World, rpc: string, params: Json) returns (es: seq<Event>)
    ensures var s := ForwardNotification(cfg, p, w, rpc, params);
            && Relays(s.w.log) == Relays(w.log) + es && SentFor(es, w.origin, rpc, params)
            && NoticeTells(es, s.r)
  {
    hide EnsureConnected, NotificationMethod, Handshakes, Relays, Listed, WellTagged, Relayed, Reports;
    hide ResultTells, SentFor, NoticeTells, SentOnce, ForwardNotification;
    NothingSent(w.origin, rpc, params);
    NotificationUnfolds(cfg, p, w, rpc, params);
    var ready := EnsureConnected(cfg, p, w);
    es := [];
    if ready.r.Err? {
      NoNotice(ready.r.error);
    } else {
      var first := NotificationMethod(cfg, ready.p.client.value, ready.w, rpc, params);
      es := Attempt(ready.w, first.w, rpc, params, Acknowledged(first.r));
      OneAttempt(es, ready.w, rpc, params, Acknowledged(first.r), false);
      OneNotice(es, ready.w, rpc, params, first.r);
      if first.r.Err? && first.r.error.RetryableBeforeExecution() {
        var again := EnsureConnected(cfg, ResetDownstream(Adopt(ready.p, first.c)), first.w);
        if again.r.Err? {
          RetryableNotice(es, again.r.error);
        } else {
          var second := NotificationMethod(cfg, again.p.client.value, again.w, rpc, params);
          var more := Attempt(again.w, second.w, rpc, params, Acknowledged(second.r));
          OneAttempt(more, again.w, rpc, params, Acknowledged(second.r), false);
          TwoAttempts(es, more, w.origin, rpc, params, Ok(JNull));
          OneNotice(more, again.w, rpc, params, second.r);
          TwoNotices(es, more, if second.r.Ok? then Ok(()) else Err(CallFailed(second.r.error)));
          assert Relays(second.w.log) == Relays(w.log) + (es + more);
          es := es + more;
        }
      }
    }
  }

  lemma ReinitializedIsInvariant(p: Proxy, w: World, params: Json, protocol: string)
    requires Invariant(p, w)
    ensures Invariant(Reinitialized(p, params, protocol), w)
         && Reinitialized(p, params, protocol).upstreamProtocol == Some(protocol)
  {
    hide Handshakes, Relays, Listed, WellTagged;
  }

  /** An `initialize` is refused as malformed, or fails only when the deadline has passed without a catalogue to show;
      in every other case the reply names the version the client asked for. */
  lemma InitializeMeaning(cfg: Config, p: Proxy, w: World, id: Json, params: Json)
    requires Invariant(p, w)
    ensures var a, version := HandleInitialize(cfg, p, w, id, params), params.GetString("protocolVersion");
            if !params.JObject? then a == Answered(p, w, ReplyError(id, -32602, BadParams))
            else if version.None? then a == Answered(p, w, ReplyError(id, -32602, MissingProtocol))
            else if a.p.cachedTools.None? then
              a.out.ReplyError? && a.out.id == id && a.out.code == -32002 && w.now + cfg.startupWait <= a.w.now
            else
              && a.out.Reply? && a.out.id == id && a.out.result.GetString("protocolVersion") == version
              && a.out.result.Get("capabilities")
                   == Some(JObject(map["tools" := JObject(map["listChanged" := JBool(true)])]))
              && a.out.result.Get("serverInfo").Some?
              && a.out.result.Get("serverInfo").value.GetString("name") == Some("cc-panes-ctl-mcp-proxy")
  {
    hide ConnectForInitialize, Handshakes, Relays, Listed, WellTagged, ResetDownstream;
    if params.JObject? && params.GetString("protocolVersion").Some? {
      var q := Reinitialized(p, params, params.GetString("protocolVersion").value);
      ReinitializedIsInvariant(p, w, params, params.GetString("protocolVersion").value);
      var s := ConnectForInitialize(cfg, q, w, w.now + cfg.startupWait);
    }
  }

  /** What a cache file is good for: one of this version that holds a list of tools, and no other. */
  lemma CacheMeaning(disk: Option<CacheFile>, tools: Json)
    ensures LoadToolsCache(disk) == Some(tools) <==>
              disk == Some(CacheFile(1, tools)) && tools.JObject? && "tools" in tools.fields
                && tools.fields["tools"].JArray?
  {
  }

  /** When the cache file is written: for the first catalogue and for every other one, and a write that fails leaves the
      file as it was. */
  lemma CacheFollows(p: Proxy, w: World, tools: Json)
    requires PageTools(tools).Some?
    ensures var (p', w') := InstallTools(p, w, tools);
            if p.cachedTools == Some(tools) then p' == p && w' == w
            else if w.Next().saved then w'.disk == Some(CacheFile(1, tools)) && w'.diskCurrent
            else w'.disk == w.disk && !w'.diskCurrent
  {
  }

  // Reading an upstream message.

  function Rpc(message: Json): Option<string> {
    message.GetString("method")
  }

  function Params(message: Json): Json {
    message.Get("params").GetOr(JObject(map[]))
  }

  /** A message the proxy answers itself, or drops. */
  predicate Local(message: Json) {
    || Rpc(message).None?
    || (message.Get("id").Some?
        && (Rpc(message).value == "initialize" || Rpc(message).value == "ping" || Rpc(message).value == "tools/list"))
    || (message.Get("id").None? && Rpc(message).value == "notifications/initialized")
  }

  ghost predicate ReplyTells(es: seq<Event>, reply: Outgoing) {
    match reply
    case Reply(_, value) => ResultTells(es, Ok(value))
    case ReplyError(_, _, why) => ResultTells(es, Err(why))
    case ListChanged => false
  }

  /** The sends of one upstream message, against the reply it got. */
  ghost predicate MessageOutcome(es: seq<Event>, origin: nat, message: Json, out: seq<Outgoing>) {
    && (Local(message) ==> es == [])
    && (Rpc(message).Some? ==> SentFor(es, origin, Rpc(message).value, Params(message)))
    && (!Local(message) && message.Get("id").Some? ==> out != [] && ReplyTells(es, out[|out| - 1]))
  }

  lemma NotStarted()
    ensures ResultTells([], Err(NotInitialized))
  {
  }

  /** The sends of one request. */
  lemma RespondSends(cfg: Config, p: Proxy, w: World, id: Json, rpc: string, params: Json) returns (es: seq<Event>)
    ensures var a := Respond(cfg, p, w, id, rpc, params);
            var own := rpc == "initialize" || rpc == "ping" || rpc == "tools/list";
            && Relays(a.w.log) == Relays(w.log) + es && SentFor(es, w.origin, rpc, params)
            && (if own then es == [] else ReplyTells(es, a.out))
  {
    hide HandleInitialize, HandleToolsList, ForwardRequest, SentFor, ResultTells;
    hide Handshakes, Relays, Listed, WellTagged, Invariant, Reports;
    es := [];
    NothingSent(w.origin, rpc, params);
    NotStarted();
    if rpc != "initialize" && rpc != "ping" && rpc != "tools/list" && p.initializeParams.Some? {
      es := ForwardRequestSends(cfg, p, w, rpc, params, rpc == "tools/call");
    }
  }

  lemma NoticeSends(cfg: Config, p: Proxy, w: World, rpc: string, params: Json) returns (es: seq<Event>)
    ensures var s := HandleNotification(cfg, p, w, rpc, params);
            && Relays(s.1.log) == Relays(w.log) + es && SentFor(es, w.origin, rpc, params)
            && (rpc == "notifications/initialized" ==> es == [])
  {
    hide ForwardNotification, SentFor, NoticeTells, Handshakes, Relays, Listed, WellTagged, Invariant, Evolves, Reports;
    es := [];
    NothingSent(w.origin, rpc, params);
    if rpc != "notifications/initialized" && p.initializeParams.Some? {
      es := ForwardNotificationSends(cfg, p, w, rpc, params);
    }
  }

  lemma MessageSends(cfg: Config, p: Proxy, w: World, message: Json) returns (es: seq<Event>)
    ensures var t := HandleMessage(cfg, p, w, message);
            Relays(t.w.log) == Relays(w.log) + es && MessageOutcome(es, w.origin, message, t.out)
  {
    hide Respond, HandleNotification, SentFor, ReplyTells, Handshakes, Relays, Listed, WellTagged, Invariant, Reports;
    es := [];
    if Rpc(message).Some? {
      if message.Get("id").Some? {
        es := RespondSends(cfg, p, w, message.Get("id").value, Rpc(message).value, Params(message));
      } else {
        es := NoticeSends(cfg, p, w, Rpc(message).value, Params(message));
      }
    }
  }

  /** The sends of one input line. */
  ghost predicate LineOutcome(cfg: Config, es: seq<Event>, origin: nat, line: string, out: seq<Outgoing>) {
    if Trim(line) == "" || cfg.parse(line).None? then es == []
    else MessageOutcome(es, origin, cfg.parse(line).value, out)
  }

  lemma LineSends(cfg: Config, p: Proxy, w: World, line: string) returns (es: seq<Event>)
    ensures var t := HandleLine(cfg, p, w, line);
            && Relays(t.w.log) == Relays(w.log) + es
            && LineOutcome(cfg, es, w.origin, line, t.out)
            && forall e | e in es :: e.origin == w.origin
  {
    hide HandleMessage, Handshakes, Relays, Listed, WellTagged, ReplyTells;
    es := [];
    if Trim(line) != "" && cfg.parse(line).Some? {
      es := MessageSends(cfg, p, w, cfg.parse(line).value);
    }
  }

  function OfMessage(es: seq<Event>, k: nat): seq<Event> {
    if es == [] then []
    else (if es[0].origin == k then [es[0]] else []) + OfMessage(es[1..], k)
  }

  lemma {:induction false} OfMessageConcat(a: seq<Event>, b: seq<Event>, k: nat)
    ensures OfMessage(a + b, k) == OfMessage(a, k) + OfMessage(b, k)
  {
    if a == [] {
      assert a + b == b;
      assert OfMessage(a, k) == [];
      assert [] + OfMessage(b, k) == OfMessage(b, k);
    } else {
      var head, tail := if a[0].origin == k then [a[0]] else [], a[1..];
      assert OfMessage(a, k) == head + OfMessage(tail, k);
      ConcatHead(a, b);
      assert OfMessage(a + b, k) == head + OfMessage(tail + b, k);
      hide OfMessage;
      OfMessageConcat(tail, b, k);
      ConcatAssociates(head, OfMessage(tail, k), OfMessage(b, k));
    }
  }

  lemma {:induction false} OfMessageUniform(es: seq<Event>, origin: nat, k: nat)
    requires forall e | e in es :: e.origin == origin
    ensures OfMessage(es, k) == if k == origin then es else []
  {
    if es != [] {
      OfMessageUniform(es[1..], origin, k);
    }
  }

  lemma NoRelays()
    ensures Relays([]) == []
  {
  }

  /** Over every run, the sends of every input line are those its text and its reply account for. */
  lemma {:induction false} RunSends(
    cfg: Config, script: seq<Answer>, disk: Option<CacheFile>, lines: seq<string>, k: nat)
    ensures var run := RunStream(cfg, script, disk, lines);
            var es := OfMessage(Relays(run.w.log), k);
            if k < |lines| then LineOutcome(cfg, es, k, lines[k], run.groups[k]) else es == []
  {
    hide LineOutcome, HandleLine, Relays, Handshakes, Listed, WellTagged;
    if lines == [] {
      NoRelays();
    } else {
      var n := |lines| - 1;
      var before := RunStream(cfg, script, disk, lines[..n]);
      RunSends(cfg, script, disk, lines[..n], k);
      var es := LineSends(cfg, before.p, before.w, lines[n]);
      OfMessageConcat(Relays(before.w.log), es, k);
      OfMessageUniform(es, n, k);
      if k < n {
        assert lines[..n][k] == lines[k];
        assert OfMessage(Relays(before.w.log), k) + [] == OfMessage(Relays(before.w.log), k);
      } else if k == n {
        assert [] + es == es;
      }
    }
  }

  /** An environment that is honest about what it carries out, told by the wire: what was never sent, and what is
      answered by saying that the session is gone, is not carried out, and a whole successful answer comes from an
      execution.  A message that is lost on the way may or may not be carried out, at any time. */
  predicate HonestPost(post: Post) {
    && (NeverSent(post.wire) || SessionGone(post) ==> !post.executed)
    && (Delivers(post.wire) ==> post.executed)
  }

  predicate Honest(es: seq<Event>) {
    forall e | e in es :: HonestPost(e.post)
  }

  function Executions(es: seq<Event>): nat {
    if es == [] then 0 else (if es[0].post.executed then 1 else 0) + Executions(es[1..])
  }

  lemma {:induction false} OfMessageIn(es: seq<Event>, k: nat)
    ensures forall e | e in OfMessage(es, k) :: e in es
  {
    if es != [] {
      OfMessageIn(es[1..], k);
    }
  }

  /** A message the proxy passes on: an object with a method that it neither answers nor drops itself. */
  predicate IsRelayed(cfg: Config, line: string) {
    Trim(line) != "" && cfg.parse(line).Some? && cfg.parse(line).value.JObject? && !Local(cfg.parse(line).value)
  }

  /** What honesty over the wire means for the outcomes. */
  lemma HonestOutcome(e: Event)
    requires Genuine(e) && HonestPost(e.post)
    ensures (Retryable(e) ==> !e.post.executed) && (e.outcome.Ok? ==> e.post.executed)
    ensures LostOnTheWay(e.post.wire) ==> e.outcome == Err(Indeterminate)
  {
    hide NeverSent, SessionGone, Delivers, LostOnTheWay, IsControl;
  }

  lemma ExecutionsOfTwo(es: seq<Event>)
    requires |es| <= 2
    ensures Executions(es) == (if 0 < |es| && es[0].post.executed then 1 else 0)
         + (if 1 < |es| && es[1].post.executed then 1 else 0)
  {
    if |es| == 1 {
      assert es[1..] == [];
    } else if |es| == 2 {
      assert es[1..] == [es[1]] && [es[1]][1..] == [];
    }
  }

  lemma AtMostOneExecution(es: seq<Event>)
    requires Honest(es) && (forall e | e in es :: Genuine(e)) && |es| <= 2 && (|es| == 2 ==> Retryable(es[0]))
    ensures Executions(es) <= 1
    ensures es != [] && es[|es| - 1].outcome.Ok? ==> Executions(es) == 1
    ensures (forall e | e in es :: Retryable(e)) ==> Executions(es) == 0
  {
    forall e | e in es
      ensures (Retryable(e) ==> !e.post.executed) && (e.outcome.Ok? ==> e.post.executed)
    {
      HonestOutcome(e);
    }
    ExecutionsOfTwo(es);
    hide HonestPost, Genuine, Retryable, Executions;
    if es != [] { assert es[0] in es && es[|es| - 1] in es; }
  }

  lemma {:induction false} RelaysIn(log: seq<Event>)
    ensures forall e | e in Relays(log) :: e in log
  {
    if log != [] {
      RelaysIn(log[..|log| - 1]);
      assert forall e | e in log[..|log| - 1] :: e in log;
    }
  }

  lemma RelaysAreGenuine(cfg: Config, script: seq<Answer>, disk: Option<CacheFile>, lines: seq<string>)
    ensures forall e | e in Relays(RunStream(cfg, script, disk, lines).w.log) :: Genuine(e)
  {
    hide RunStream, Relays, Genuine, Invariant;
    RunInvariant(cfg, script, disk, lines);
    RelaysIn(RunStream(cfg, script, disk, lines).w.log);
  }

  /** At most once, over whole runs: every upstream message is sent on at most twice, only ever with its own
      method and parameters, and executed at most once, counting executions that happen after the reply. */
  lemma AtMostOnce(cfg: Config, script: seq<Answer>, disk: Option<CacheFile>, lines: seq<string>, k: nat)
    requires k < |lines|
    requires Honest(Relays(RunStream(cfg, script, disk, lines).w.log))
    ensures var run := RunStream(cfg, script, disk, lines);
            var es := OfMessage(Relays(run.w.log), k);
            && |es| <= 2 && Executions(es) <= 1
            && (!IsRelayed(cfg, lines[k]) ==> es == [])
            && (forall e | e in es ::
                  e.rpc == Rpc(cfg.parse(lines[k]).value).value && e.params == Params(cfg.parse(lines[k]).value))
  {
    var run := RunStream(cfg, script, disk, lines);
    var es := OfMessage(Relays(run.w.log), k);
    hide RunStream, OfMessage, Relays, Executions, Trim, Params, Retryable, ReplyTells;
    RunSends(cfg, script, disk, lines, k);
    OfMessageIn(Relays(run.w.log), k);
    RelaysAreGenuine(cfg, script, disk, lines);
    AtMostOneExecution(es);
  }

  predicate NothingExecuted(why: Failure) {
    why.Disconnected() || why.NotInitialized? || (why.CallFailed? && why.kind.RetryableBeforeExecution())
  }

  /** What a reply says about the execution of the request it answers: a result means exactly once, with that
      result; no connection, or a failure known to precede execution, means not at all; and whenever a send
      ended uncertainly, as it does when the message or its answer is lost on the way, the reply says so. */
  ghost predicate Truthful(reply: Outgoing, es: seq<Event>) {
    && (reply.Reply? ==> Executions(es) == 1 && es[|es| - 1].post.executed && es[|es| - 1].outcome == Ok(reply.result))
    && (reply.ReplyError? && NothingExecuted(reply.why) ==> Executions(es) == 0)
    && (forall e | e in es && (e.outcome == Err(Indeterminate) || e.outcome == Err(InvalidResponse)) ::
          reply.ReplyError? && reply.why.Uncertain? && reply.why.kind == e.outcome.error)
    && (forall e | e in es && LostOnTheWay(e.post.wire) ::
          reply.ReplyError? && reply.why.Uncertain? && reply.why.kind.Indeterminate?)
  }

  lemma TellsTruth(reply: Outgoing, es: seq<Event>, origin: nat, rpc: string, params: Json)
    requires SentFor(es, origin, rpc, params) && ReplyTells(es, reply) && Honest(es)
    requires forall e | e in es :: Genuine(e)
    ensures Truthful(reply, es)
  {
    AtMostOneExecution(es);
    forall e | e in es && LostOnTheWay(e.post.wire) ensures e.outcome == Err(Indeterminate) { HonestOutcome(e); }
    hide Genuine, HonestPost, LostOnTheWay;
    if reply.Reply? {
      assert es[|es| - 1] in es;
    }
  }

  lemma ReplyMeaning(cfg: Config, script: seq<Answer>, disk: Option<CacheFile>, lines: seq<string>, k: nat)
    requires k < |lines| && IsRelayed(cfg, lines[k]) && cfg.parse(lines[k]).value.Get("id").Some?
    requires Honest(Relays(RunStream(cfg, script, disk, lines).w.log))
    ensures var run := RunStream(cfg, script, disk, lines);
            run.groups[k] != [] && Truthful(run.groups[k][|run.groups[k]| - 1], OfMessage(Relays(run.w.log), k))
  {
    hide RunStream, Relays, SentFor, ReplyTells, Truthful, Trim;
    var run := RunStream(cfg, script, disk, lines);
    var message := cfg.parse(lines[k]).value;
    RunSends(cfg, script, disk, lines, k);
    OfMessageIn(Relays(run.w.log), k);
    RelaysAreGenuine(cfg, script, disk, lines);
    TellsTruth(run.groups[k][|run.groups[k]| - 1], OfMessage(Relays(run.w.log), k), k, Rpc(message).value,
        Params(message));
  }

  // ---------- All sends of a message's method ----------

  /** How many sends of `rpc` were made while message `k` was handled, by the proxy itself or on the client's behalf. */
  function Sends(log: seq<Event>, k: nat, rpc: string): nat {
    if log == [] then 0
    else
      var e := log[|log| - 1];
      Sends(log[..|log| - 1], k, rpc) + (if e.origin == k && e.rpc == rpc then 1 else 0)
  }

  lemma {:induction false} SendsAreRelays(log: seq<Event>, k: nat, rpc: string)
    requires WellTagged(log) && !IsControl(rpc)
    ensures Sends(log, k, rpc) == Sends(Relays(log), k, rpc)
  {
    if log != [] {
      var n := |log| - 1;
      SendsAreRelays(log[..n], k, rpc);
      if log[n].purpose.Relay? {
        assert (Relays(log[..n]) + [log[n]])[..|Relays(log[..n])|] == Relays(log[..n]);
      } else {
        assert Relays(log[..n]) + [] == Relays(log[..n]);
      }
    }
  }

  lemma {:induction false} SendsWithinMessage(es: seq<Event>, k: nat, rpc: string)
    ensures Sends(es, k, rpc) <= |OfMessage(es, k)|
  {
    if es != [] {
      var n := |es| - 1;
      SendsWithinMessage(es[..n], k, rpc);
      OfMessageConcat(es[..n], [es[n]], k);
      assert es[..n] + [es[n]] == es;
    }
  }

  /** No message causes more than two sends of any method the proxy does not use for itself.  (Handling a message
      may send `initialize`, `notifications/initialized` and `tools/list` more often: reconnecting uses them.) */
  lemma AtMostTwoSends(
    cfg: Config, script: seq<Answer>, disk: Option<CacheFile>, lines: seq<string>, k: nat, rpc: string)
    requires k < |lines| && !IsControl(rpc)
    ensures Sends(RunStream(cfg, script, disk, lines).w.log, k, rpc) <= 2
  {
    hide RunStream, Relays, Handshakes, Listed, WellTagged, IsControl, ReplyTells;
    var run := RunStream(cfg, script, disk, lines);
    RunInvariant(cfg, script, disk, lines);
    SendsAreRelays(run.w.log, k, rpc);
    SendsWithinMessage(Relays(run.w.log), k, rpc);
    RunSends(cfg, script, disk, lines, k);
  }
}
